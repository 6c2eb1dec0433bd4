/**
 * The materialised document tree: entities with shared properties and,
 * for an entity that inserts another document, the entities of that
 * document as its children. Lookups by key and by name, the pre-order
 * walk and the read-only copy of entities live here.
 */
module Entities {
  import opened Wrappers
  import opened Property
  import Tx = Transaction

  /**
   * `None` in the source: an ordinary entity. `Inserted(es)`: the entity
   * inserts another document and `es` is that document's content.
   */
  datatype Children = NoChildren | Inserted(entities: seq<Entity>)

  datatype Entity = Entity(name: EntityName, props: seq<PropertyValue>, children: Children)
  {
    /** The shared property stored under `key`: the first one with that key. */
    function GetPropertyPtr(key: KT): (r: Option<PropertyValue>)
      ensures r.Some? ==> r.value in props && r.value.key == key
      ensures r.None? <==> forall p | p in props :: p.key != key
    {
      var i := KeyIndex(props, key);
      if i.Some? then Some(props[i.value]) else None
    }

    /**
     * The payload stored under `key`, when it is of the requested kind
     * (the checked downcast of `get_property::<T>`); `None` when the key is
     * missing or its payload is of another kind.
     */
    function GetProperty(key: KT, kind: Kind): (r: Option<Payload>)
      ensures r.Some? <==> GetPropertyPtr(key).Some? && KindOf(GetPropertyPtr(key).value.value) == kind
      ensures r.Some? ==> r.value == GetPropertyPtr(key).value.value && KindOf(r.value) == kind
    {
      var p := GetPropertyPtr(key);
      if p.Some? && KindOf(p.value.value) == kind then Some(p.value.value) else None
    }

    /**
     * Follow `path` down through inserted documents, matching each segment
     * against the trailing segment of a child's name; the empty path is the
     * entity itself.
     */
    function GetChild(path: seq<u32>): (r: Option<Entity>)
      ensures path == [] ==> r == Some(this)
      ensures path != [] && r.Some? ==> Last(r.value.name) == path[|path| - 1]
      ensures path != [] && children.NoChildren? ==> r.None?
      ensures |path| == 1 && children.Inserted? && r.Some? ==>
        exists i :: 0 <= i < |children.entities| && r.value == children.entities[i] &&
          forall j :: 0 <= j < i ==> Last(children.entities[j].name) != path[0]
      decreases |path|
    {
      if path == [] then Some(this)
      else if children.NoChildren? then None
      else
        var cs := children.entities;
        var i := FindByLast(cs, path[0]);
        if i.None? then None else cs[i.value].GetChild(path[1..])
    }
  }


  /** A freshly created entity: the single-segment name, no properties, no children. */
  function NewEntity(seg: u32): (r: Entity)
    ensures Last(r.name) == seg && r.props == [] && EntityOk(r)
  {
    Entity([seg], [], NoChildren)
  }

  /** Position of the first property with `key` (`Iterator::position`). */
  function KeyIndex(props: seq<PropertyValue>, key: KT): (r: Option<nat>)
    ensures r.Some? ==> r.value < |props| && props[r.value].key == key
    ensures r.Some? ==> forall j :: 0 <= j < r.value ==> props[j].key != key
    ensures r.None? ==> forall j :: 0 <= j < |props| ==> props[j].key != key
  {
    if props == [] then None
    else if props[0].key == key then Some(0)
    else
      var r := KeyIndex(props[1..], key);
      if r.None? then None else Some(r.value + 1)
  }

  /** Position of the first entity whose trailing name segment is `seg`. */
  function FindByLast(content: seq<Entity>, seg: u32): (r: Option<nat>)
    ensures r.Some? ==> r.value < |content| && Last(content[r.value].name) == seg
    ensures r.Some? ==> forall j :: 0 <= j < r.value ==> Last(content[j].name) != seg
    ensures r.None? ==> forall j :: 0 <= j < |content| ==> Last(content[j].name) != seg
  {
    if content == [] then None
    else if Last(content[0].name) == seg then Some(0)
    else
      var r := FindByLast(content[1..], seg);
      if r.None? then None else Some(r.value + 1)
  }

  /** `KeyIndex` is the first position with the key, whichever way it is reached. */
  lemma KeyIndexIs(props: seq<PropertyValue>, key: KT, i: nat)
    requires i < |props| && props[i].key == key
    requires forall j :: 0 <= j < i ==> props[j].key != key
    ensures KeyIndex(props, key) == Some(i)
  {
  }

  /** Appending an element leaves every earlier first position in place. */
  lemma KeyIndexAppend(props: seq<PropertyValue>, p: PropertyValue, key: KT)
    ensures KeyIndex(props, key).Some? ==> KeyIndex(props + [p], key) == KeyIndex(props, key)
    ensures KeyIndex(props, key).None? && p.key == key ==> KeyIndex(props + [p], key) == Some(|props|)
    ensures KeyIndex(props, key).None? && p.key != key ==> KeyIndex(props + [p], key).None?
  {
    var r := KeyIndex(props, key);
    if r.Some? {
      KeyIndexIs(props + [p], key, r.value);
    } else if p.key == key {
      KeyIndexIs(props + [p], key, |props|);
    }
  }

  /** With unique keys, a property held by the list is the one found under its key. */
  lemma UniqueLookup(e: Entity, q: PropertyValue)
    requires UniqueKeys(e.props) && q in e.props
    ensures e.GetPropertyPtr(q.key) == Some(q)
  {
    var j :| 0 <= j < |e.props| && e.props[j] == q;
    KeyIndexIs(e.props, q.key, j);
  }

  /** `FindByLast` is the first position with the trailing segment. */
  lemma FindByLastIs(content: seq<Entity>, seg: u32, i: nat)
    requires i < |content| && Last(content[i].name) == seg
    requires forall j :: 0 <= j < i ==> Last(content[j].name) != seg
    ensures FindByLast(content, seg) == Some(i)
  {
  }

  /** No two properties of a list share a key. */
  predicate UniqueKeys(props: seq<PropertyValue>)
  {
    forall i, j :: 0 <= i < j < |props| ==> props[i].key != props[j].key
  }

  /**
   * `Vec::swap_remove`: the last element takes the place of the removed one.
   * Every other element keeps its position, and nothing else is lost.
   */
  function SwapRemove<T>(s: seq<T>, i: nat): (r: seq<T>)
    requires i < |s|
    ensures |r| == |s| - 1
    ensures forall j :: 0 <= j < |r| && j != i ==> r[j] == s[j]
    ensures i < |r| ==> r[i] == s[|s| - 1]
    ensures multiset(r) == multiset(s) - multiset{s[i]}
  {
    var r := s[i := s[|s| - 1]][..|s| - 1];
    assert s == s[..i] + [s[i]] + s[i + 1..];
    if i == |s| - 1 then
      assert r == s[..i];
      r
    else
      assert r == s[..i] + [s[|s| - 1]] + s[i + 1..|s| - 1];
      assert s[i + 1..] == s[i + 1..|s| - 1] + [s[|s| - 1]];
      r
  }

  /** Removing a property by `swap_remove` keeps the remaining keys unique. */
  lemma SwapRemoveKeepsUnique(props: seq<PropertyValue>, i: nat)
    requires i < |props| && UniqueKeys(props)
    ensures UniqueKeys(SwapRemove(props, i))
    ensures forall p | p in SwapRemove(props, i) :: p.key != props[i].key
  {
    var r := SwapRemove(props, i);
    var last := |props| - 1;
    forall a, b | 0 <= a < b < |r|
      ensures r[a].key != r[b].key
    {
      var a' := if a == i then last else a;
      var b' := if b == i then last else b;
      assert r[a] == props[a'] && r[b] == props[b'];
    }
    forall p | p in r
      ensures p.key != props[i].key
    {
      var a :| 0 <= a < |r| && r[a] == p;
      var a' := if a == i then last else a;
      assert p == props[a'] && a' != i;
    }
  }

  /** The key a property change is about. */
  function KeyOf(c: Tx.PropChange): KT
  {
    match c
    case Update(p) => p.key
    case Delete(k) => k
  }

  /**
   * What one property change does to a property list: an update replaces
   * the first property with its key, or appends when there is none; a
   * delete `swap_remove`s the first property with its key, if any.
   */
  function ChangedProps(props: seq<PropertyValue>, c: Tx.PropChange): (r: seq<PropertyValue>)
    ensures UniqueKeys(props) ==> UniqueKeys(r)
  {
    match c
    case Update(p) =>
      var pos := KeyIndex(props, p.key);
      if pos.Some? then
        var r := props[pos.value := p];
        assert forall j :: 0 <= j < |props| ==> r[j].key == props[j].key;
        r
      else
        props + [p]
    case Delete(key) =>
      var pos := KeyIndex(props, key);
      if pos.None? then props
      else
        var r := SwapRemove(props, pos.value);
        if UniqueKeys(props) then
          SwapRemoveKeepsUnique(props, pos.value);
          r
        else r
  }

  /**
   * After an update the list holds the given pointer under its key, having
   * replaced the property with that key or grown by one; every other
   * element was there before.
   */
  lemma UpdatedPropsMeaning(props: seq<PropertyValue>, p: PropertyValue)
    ensures var r := ChangedProps(props, Tx.PropChange.Update(p));
      && (forall q | q in r :: q in props || q == p)
      && KeyIndex(r, p.key).Some? && r[KeyIndex(r, p.key).value] == p
      && |r| == |props| + (if KeyIndex(props, p.key).Some? then 0 else 1)
  {
    var r := ChangedProps(props, Tx.PropChange.Update(p));
    var pos := KeyIndex(props, p.key);
    if pos.Some? {
      assert forall j :: 0 <= j < |props| ==> r[j].key == props[j].key;
      KeyIndexIs(r, p.key, pos.value);
    } else {
      KeyIndexAppend(props, p, p.key);
    }
  }

  /**
   * After a delete the list has lost the property with the key, if there
   * was one, and with unique keys no property with it is left; nothing
   * else appears.
   */
  lemma DeletedPropsMeaning(props: seq<PropertyValue>, key: KT)
    ensures var r := ChangedProps(props, Tx.PropChange.Delete(key));
      && (forall q | q in r :: q in props)
      && (UniqueKeys(props) ==> KeyIndex(r, key).None?)
      && |r| == |props| - (if KeyIndex(props, key).Some? then 1 else 0)
  {
    var r := ChangedProps(props, Tx.PropChange.Delete(key));
    var pos := KeyIndex(props, key);
    if pos.Some? {
      assert forall q | q in r :: q in multiset(r);
      if UniqueKeys(props) {
        SwapRemoveKeepsUnique(props, pos.value);
      }
    }
  }

  /** A property change leaves the property under every other key as it was. */
  lemma ChangedPropsKeepOtherKeys(e: Entity, c: Tx.PropChange, k: KT)
    requires UniqueKeys(e.props) && k != KeyOf(c)
    ensures e.(props := ChangedProps(e.props, c)).GetPropertyPtr(k) == e.GetPropertyPtr(k)
  {
    var e' := e.(props := ChangedProps(e.props, c));
    var before := e.GetPropertyPtr(k);
    if before.Some? {
      KeptProperty(e.props, c, before.value);
      UniqueLookup(e', before.value);
    } else {
      match c {
        case Update(p) => UpdatedPropsMeaning(e.props, p);
        case Delete(key) => DeletedPropsMeaning(e.props, key);
      }
    }
  }

  /** A property whose key a change does not touch survives the change. */
  lemma KeptProperty(props: seq<PropertyValue>, c: Tx.PropChange, q: PropertyValue)
    requires q in props && q.key != KeyOf(c)
    ensures q in ChangedProps(props, c)
  {
    var j :| 0 <= j < |props| && props[j] == q;
    var pos := KeyIndex(props, KeyOf(c));
    if c.Delete? && pos.Some? {
      assert props[pos.value] != q;
      assert q in multiset(ChangedProps(props, c));
    } else {
      assert ChangedProps(props, c)[j] == q;
    }
  }

  /**
   * The tree invariant replay keeps, at every depth: siblings have distinct
   * trailing segments, every stored name is a single segment, and no entity
   * holds two properties with the same key.
   */
  predicate TreeOk(ts: seq<Entity>)
    decreases ts
  {
    SiblingsDistinct(ts) && forall i | 0 <= i < |ts| :: EntityOk(ts[i])
  }

  /** No two siblings share a trailing segment, so a trailing segment picks at most one. */
  predicate SiblingsDistinct(ts: seq<Entity>)
  {
    forall i, j :: 0 <= i < j < |ts| ==> Last(ts[i].name) != Last(ts[j].name)
  }

  predicate EntityOk(e: Entity)
    decreases e
  {
    |e.name| == 1 && UniqueKeys(e.props) && (e.children.Inserted? ==> TreeOk(e.children.entities))
  }

  /** Replacing an entity by a well-formed one with the same trailing segment keeps a tree well-formed. */
  lemma ReplacedKeepsTree(ts: seq<Entity>, i: nat, e: Entity)
    requires TreeOk(ts) && i < |ts| && EntityOk(e) && Last(e.name) == Last(ts[i].name)
    ensures TreeOk(ts[i := e])
  {
    var ts' := ts[i := e];
    assert forall j :: 0 <= j < |ts| ==> Last(ts'[j].name) == Last(ts[j].name);
  }

  /** Appending a well-formed entity whose trailing segment is new keeps a tree well-formed. */
  lemma AppendedKeepsTree(ts: seq<Entity>, e: Entity)
    requires TreeOk(ts) && EntityOk(e) && forall j :: 0 <= j < |ts| ==> Last(ts[j].name) != Last(e.name)
    ensures TreeOk(ts + [e])
  {
  }

  /** Removing an entity by `swap_remove` keeps a tree well-formed. */
  lemma SwapRemovedKeepsTree(ts: seq<Entity>, i: nat)
    requires TreeOk(ts) && i < |ts|
    ensures TreeOk(SwapRemove(ts, i))
  {
    SwapRemovedFrom(ts, i);
    SwapRemovedDistinct(ts, i);
  }

  /** `swap_remove` keeps siblings distinct. */
  lemma SwapRemovedDistinct(ts: seq<Entity>, i: nat)
    requires SiblingsDistinct(ts) && i < |ts|
    ensures SiblingsDistinct(SwapRemove(ts, i))
  {
    var r := SwapRemove(ts, i);
    forall a, b | 0 <= a < b < |r|
      ensures Last(r[a].name) != Last(r[b].name)
    {
      var a', b' := SwapSource(ts, i, a), SwapSource(ts, i, b);
      if a' < b' {
        assert Last(ts[a'].name) != Last(ts[b'].name);
      } else {
        assert Last(ts[b'].name) != Last(ts[a'].name);
      }
    }
  }

  /**
   * Removing entity `i` by `swap_remove` from distinct siblings leaves no
   * entity with its trailing segment.
   */
  lemma SwapRemovedSegment(ts: seq<Entity>, i: nat)
    requires SiblingsDistinct(ts) && i < |ts|
    ensures forall e | e in SwapRemove(ts, i) :: Last(e.name) != Last(ts[i].name)
  {
    var r := SwapRemove(ts, i);
    forall j | 0 <= j < |r|
      ensures Last(r[j].name) != Last(ts[i].name)
    {
      var j' := SwapSource(ts, i, j);
      if j' < i {
        assert Last(ts[j'].name) != Last(ts[i].name);
      } else {
        assert Last(ts[i].name) != Last(ts[j'].name);
      }
    }
  }

  /** `swap_remove` keeps every entity with another trailing segment than the removed one's. */
  lemma SwapRemovedKeepsOthers(ts: seq<Entity>, i: nat)
    requires i < |ts|
    ensures forall e | e in ts && Last(e.name) != Last(ts[i].name) :: e in SwapRemove(ts, i)
  {
    var r := SwapRemove(ts, i);
    forall e | e in ts && Last(e.name) != Last(ts[i].name)
      ensures e in r
    {
      var j :| 0 <= j < |ts| && ts[j] == e;
      if j == |ts| - 1 {
        assert r[i] == e;
      } else {
        assert r[j] == e;
      }
    }
  }

  /** Where element `a` of `SwapRemove(s, i)` comes from. */
  function SwapSource<T>(s: seq<T>, i: nat, a: nat): (j: nat)
    requires i < |s| && a < |s| - 1
    ensures j < |s| && j != i && SwapRemove(s, i)[a] == s[j]
  {
    if a == i then |s| - 1 else a
  }

  /** Every element left by `swap_remove` is an element of the original. */
  lemma SwapRemovedFrom(ts: seq<Entity>, i: nat)
    requires TreeOk(ts) && i < |ts|
    ensures forall a | 0 <= a < |ts| - 1 :: EntityOk(SwapRemove(ts, i)[a])
  {
    forall a | 0 <= a < |ts| - 1
      ensures EntityOk(SwapRemove(ts, i)[a])
    {
      assert SwapRemove(ts, i)[a] == ts[SwapSource(ts, i, a)];
    }
  }

  /**
   * Resolve a full name from the top of a document (`Document::get_entity`):
   * the first segment picks a top-level entity by trailing segment, the
   * rest is followed through inserted documents.
   */
  function ResolveName(content: seq<Entity>, name: Name): (r: Option<Entity>)
    ensures name == [] ==> r.None?
    ensures r.Some? ==> |name| > 0 && Last(r.value.name) == name[|name| - 1]
    ensures |name| == 1 ==> (r.Some? <==> exists i :: 0 <= i < |content| && Last(content[i].name) == name[0])
    ensures |name| == 1 && r.Some? ==>
      exists i :: 0 <= i < |content| && r.value == content[i] && forall j :: 0 <= j < i ==> Last(content[j].name) != name[0]
  {
    if name == [] then None
    else
      var i := FindByLast(content, name[0]);
      if i.None? then None else content[i.value].GetChild(name[1..])
  }

  /**
   * Following a path one segment further: the extended path reaches the
   * first child, with that trailing segment, of the entity the path
   * reaches, and nothing when that entity inserts no document.
   */
  lemma {:induction false} GetChildSnoc(e: Entity, path: seq<u32>, s: u32)
    ensures var p := e.GetChild(path);
      e.GetChild(path + [s]) == if p.Some? && p.value.children.Inserted? then ResolveName(p.value.children.entities, [s]) else None
    decreases |path|
  {
    if path == [] {
      assert path + [s] == [s];
    } else if e.children.Inserted? {
      var cs := e.children.entities;
      assert (path + [s])[0] == path[0] && (path + [s])[1..] == path[1..] + [s];
      var i := FindByLast(cs, path[0]);
      if i.Some? {
        GetChildSnoc(cs[i.value], path[1..], s);
      }
    }
  }

  /**
   * Resolving a name one segment further from the top of a document: the
   * extended name resolves to the first child, with that trailing segment,
   * of the entity the name resolves to, and to nothing when that entity
   * inserts no document.
   */
  lemma ResolveSnoc(content: seq<Entity>, name: Name, s: u32)
    requires name != []
    ensures var h := ResolveName(content, name);
      ResolveName(content, name + [s]) == if h.Some? && h.value.children.Inserted? then ResolveName(h.value.children.entities, [s]) else None
  {
    assert (name + [s])[0] == name[0] && (name + [s])[1..] == name[1..] + [s];
    var i := FindByLast(content, name[0]);
    if i.Some? {
      GetChildSnoc(content[i.value], name[1..], s);
    }
  }

  /** Below the top, resolving a name is following it from the entity that inserts the document. */
  lemma ResolveBelow(host: Entity, path: seq<u32>)
    requires host.children.Inserted? && path != []
    ensures host.GetChild(path) == ResolveName(host.children.entities, path)
  {
  }

  /**
   * The order the entity iterator visits: each entity, then (when `deep`
   * and it inserts a document) its children in the same order, then its
   * next sibling.
   */
  function PreOrder(ts: seq<Entity>, deep: bool): seq<Entity>
    decreases ts
  {
    if ts == [] then [] else Flat(ts[0], deep) + PreOrder(ts[1..], deep)
  }

  function Flat(e: Entity, deep: bool): seq<Entity>
    decreases e
  {
    [e] + (if deep && e.children.Inserted? then PreOrder(e.children.entities, deep) else [])
  }

  /** Without children, the walk is the top-level list itself. */
  lemma {:induction false} PreOrderShallow(ts: seq<Entity>)
    ensures PreOrder(ts, false) == ts
    decreases ts
  {
    if ts != [] {
      PreOrderShallow(ts[1..]);
      assert ts == [ts[0]] + ts[1..];
    }
  }

  /** The walk over a concatenation is the concatenation of the walks. */
  lemma {:induction false} PreOrderConcat(a: seq<Entity>, b: seq<Entity>, deep: bool)
    ensures PreOrder(a + b, deep) == PreOrder(a, deep) + PreOrder(b, deep)
    decreases a
  {
    if a == [] {
      assert a + b == b;
    } else {
      assert (a + b)[1..] == a[1..] + b;
      PreOrderConcat(a[1..], b, deep);
    }
  }

  /** Every top-level entity is visited by either walk. */
  lemma {:induction false} PreOrderVisitsTop(ts: seq<Entity>, deep: bool, i: nat)
    requires i < |ts|
    ensures ts[i] in PreOrder(ts, deep)
    decreases ts
  {
    if i > 0 {
      PreOrderVisitsTop(ts[1..], deep, i - 1);
    }
  }

  /** A copied entity: its properties, still the same shared pointers. */
  datatype PlainEntity = PlainEntity(props: seq<PropertyValue>)

  /** The entities of `walk` whose stored name is in `names`, as plain copies, in order. */
  function Copied(walk: seq<Entity>, names: set<Name>): (r: seq<PlainEntity>)
    ensures |r| <= |walk|
  {
    if walk == [] then []
    else
      var init := Copied(walk[..|walk| - 1], names);
      var e := walk[|walk| - 1];
      if e.name in names then init + [PlainEntity(e.props)] else init
  }

  /** Copying one more visited entity appends its copy exactly when its name is wanted. */
  lemma CopiedSnoc(walk: seq<Entity>, e: Entity, names: set<Name>)
    ensures Copied(walk + [e], names) == Copied(walk, names) + (if e.name in names then [PlainEntity(e.props)] else [])
  {
    assert (walk + [e])[..|walk|] == walk;
  }

  /**
   * Copying keeps exactly the named entities: every copy comes from an
   * entity of the walk with one of the names, and every such entity is
   * copied.
   */
  lemma {:induction false} CopiedMeaning(walk: seq<Entity>, names: set<Name>)
    ensures forall c | c in Copied(walk, names) :: exists e | e in walk :: e.name in names && c.props == e.props
    ensures forall e | e in walk && e.name in names :: PlainEntity(e.props) in Copied(walk, names)
    decreases |walk|
  {
    if walk != [] {
      var front, last := walk[..|walk| - 1], walk[|walk| - 1];
      CopiedMeaning(front, names);
      assert walk == front + [last];
      forall e | e in walk && e.name in names
        ensures PlainEntity(e.props) in Copied(walk, names)
      {
        if e != last {
          assert e in front;
        }
      }
    }
  }

  /** Every entity a walk over a well-formed tree visits carries a single-segment name. */
  lemma {:induction false} PreOrderNamesSingle(ts: seq<Entity>, deep: bool)
    requires TreeOk(ts)
    ensures forall e | e in PreOrder(ts, deep) :: |e.name| == 1
    decreases ts
  {
    if ts != [] {
      FlatNamesSingle(ts[0], deep);
      PreOrderNamesSingle(ts[1..], deep);
    }
  }

  lemma {:induction false} FlatNamesSingle(e: Entity, deep: bool)
    requires EntityOk(e)
    ensures forall x | x in Flat(e, deep) :: |x.name| == 1
    decreases e
  {
    if deep && e.children.Inserted? {
      PreOrderNamesSingle(e.children.entities, deep);
    }
  }

  /**
   * What `copy` selects in a well-formed document: stored names are single
   * segments, so a name `[s]` selects every entity, at any depth, whose
   * trailing segment is `s`, and a set of names none of which is a single
   * segment (full names of nested entities, say) selects nothing.
   */
  lemma CopySelectsBySegment(content: seq<Entity>, names: set<Name>)
    requires TreeOk(content)
    ensures var walk := PreOrder(content, true);
      forall e | e in walk && [Last(e.name)] in names :: PlainEntity(e.props) in Copied(walk, names)
    ensures (forall n | n in names :: |n| != 1) ==> Copied(PreOrder(content, true), names) == []
  {
    var walk := PreOrder(content, true);
    PreOrderNamesSingle(content, true);
    CopiedMeaning(walk, names);
    forall e | e in walk
      ensures e.name == [Last(e.name)]
    {
      assert |e.name| == 1;
    }
    if forall n | n in names :: |n| != 1 {
      CopiedNone(walk, names);
    }
  }

  /** A walk none of whose entities is named copies nothing. */
  lemma {:induction false} CopiedNone(walk: seq<Entity>, names: set<Name>)
    requires forall e | e in walk :: e.name !in names
    ensures Copied(walk, names) == []
    decreases |walk|
  {
    if walk != [] {
      CopiedNone(walk[..|walk| - 1], names);
    }
  }
}
