# Entity engine of d3s: a Dafny model

This project models the document engine of `d3s`:

- **Documents.** A document is a tree of *entities*. Each entity has a name and a list of shared, immutable *property values*, each stored under a key. An entity whose `INS_DOC` property holds a document id *inserts* that document: the other document's entities become its children.
- **Transactions.** Changes are never made to the tree directly. They are collected in an open *transaction*: create, update or delete an entity; add, delete or copy a property.
- **Replay.** A transaction is applied by *replaying* its log on the content.
- **History.** Committed transactions form a history with an undo position. Undo, redo and switching documents clear the content and replay a prefix of the history from an empty document.
- **Inserted documents.** Inserting a document replays that document's whole cached history into the inserting entity's children.

Modules follow the program's structure:

| file | module | what it holds |
|---|---|---|
| `wrappers.dfy` | `Wrappers` | `Option` and `Result` |
| `property.dfy` | `Property` | fixed-width integers, keys, document ids, names, the shared `PropertyValue` |
| `changed.dfy` | `Changed` | `ChangedEntities`: the per-name change flags a replay reports, and their merge |
| `transaction.dfy` | `Transaction` | the transaction builder, `merge` and `len` |
| `entity.dfy` | `Entities` | entities, property lookup and update, name resolution, the pre-order walk, `copy`, the tree invariant `TreeOk` |
| `replay.dfy` | `Replay` | replay as specification functions, one per level (`AppliedChange`, `AppliedProps`, `CreatedOrUpdated`, `Replayed`); the source's loops as methods proved equal to them; the properties of replay |
| `iterator.dfy` | `Iteration` | `EntityIterator`, a class over a stack of positions, proved against the list of entities still to come |
| `document.dfy` | `Documents` | the `Document` class (`content`, `atrs`, `my`, `other`), `Rebuilt` (the specification of rebuilding from history), undo/redo, switch, commit |

Replay works in place in the source. When a change fails, the content keeps what was already changed. Each replay level therefore returns an `Outcome` with the result, the content as it stands, and the cache of document histories, which replay may extend.

Several properties are proved about replay and history:

- Replay keeps the tree well-formed (`TreeOk`): siblings have distinct trailing segments, every stored name is a single segment, and property keys are unique.
- Replay only extends the cache, and it reads the cache only through the logs it holds.
- The content of a document is what its history rebuilds (`Consistent`). Commit, undo and switch preserve this.
- Undo followed by redo restores the content.

`switch` does not check whether `id` is already the current document (src/entity.rs:303-327). Switching to the current id pushes its history into the cache and starts a fresh one.

## Model

| member | source | states |
|---|---|---|
| Property.PropertyValue.constructor | src/property.rs:39-42 | a shared value keeps the key and payload it was built with |
| Changed.Bit | src/entity.rs:24-28 | each change flag occupies one of the bits 1, 2, 4, 8, 16 |
| Changed.BitsDistinct | src/entity.rs:24-28 | distinct flags have distinct bits, so a flag set carries the same information as the bitset |
| Changed.ChangedEntities.Add | src/entity.rs:245-249 | the name gains the new flags, united with those it had; every other name keeps its flags |
| Changed.Merge | src/entity.rs:251-255 | folding every entry of the other summary in with `add`, in any order, gives the name-wise union of flags |
| Changed.MergedKeepsFlags | src/entity.rs:251-255 | a merge reports exactly the names of either side, each with exactly the flags either side reported |
| Changed.CoversAdd | src/entity.rs:245-249 | adding flags loses nothing already reported and records the added flags |
| Changed.MergedCommutes | src/entity.rs:251-255 | the order in which summaries are merged does not matter |
| Transaction.EntityChanges.Add | src/transaction.rs:141-148 | a fresh shared value with the key and payload is appended as an `Update`; the name is unchanged |
| Transaction.EntityChanges.Delete | src/transaction.rs:150-154 | exactly one change, the deletion of the key, is appended; the name and earlier changes are kept |
| Transaction.EntityChanges.Copy | src/transaction.rs:156-161 | exactly one `Update` is appended, holding the given shared pointer itself rather than a new one; the name and earlier changes are kept |
| Transaction.Transaction.CreateEntity | src/transaction.rs:179-186 | the record's name is the current counter; only the counter's last segment is incremented, by one; one empty `Update` is appended |
| Transaction.Transaction.UpdateEntity | src/transaction.rs:188-199 | one empty `Update` for the name is appended; earlier entries and the counter are unchanged |
| Transaction.Transaction.DeleteEntity | src/transaction.rs:201-203 | one `Delete` of the name is appended; earlier entries and the counter are unchanged |
| Transaction.Creates | src/transaction.rs:179-186 | at most one name is allocated per builder operation; one per operation exactly when every operation creates, none exactly when none does |
| Transaction.Allocate | src/transaction.rs:179-203 | in any sequence of create, update and delete calls, exactly one name per create is allocated; the created names strictly increase in their trailing segment and lie between the old and new counter, which advances by the number of creates |
| Transaction.AllocatedNamesDistinct | tests/base.rs:152-168 | no name is handed out twice, whatever is deleted in between |
| Transaction.Merge | src/transaction.rs:205-224 | the merged log is the in-order concatenation of all logs; the result carries no counter and is not open |
| Transaction.FlattenConcat | src/transaction.rs:212-221 | concatenating logs distributes over splitting the list of transactions |
| Transaction.FlattenLength | src/transaction.rs:212-221 | the merged log's length is the sum of the logs' lengths |
| Transaction.Len | src/transaction.rs:227-240 | the count is the number of property changes of all `Update` records plus one per `Delete` |
| Transaction.ChangeCountConcat | src/transaction.rs:227-240 | the count of two concatenated logs is the sum of their counts |
| Transaction.LenOfMerge | src/transaction.rs:205-240 | the length of a merged transaction is the sum of the lengths of its parts |
| Transaction.BuilderLenGrowth | src/entity.rs:658-677 | creating or updating an entity alone adds nothing to the length; deleting one adds one |
| Transaction.AppendPropRaisesLen | src/entity.rs:658-677 | appending a property change through a record handle raises the length by exactly one |
| Entities.Entity.GetPropertyPtr | src/entity.rs:121-127 | the result is a property of the entity with the key; it is `None` exactly when no property has the key |
| Entities.Entity.GetProperty | src/entity.rs:112-119 | a payload is returned exactly when the key is present and its payload has the requested kind, and it is that payload |
| Entities.Entity.GetChild | src/entity.rs:133-149 | the empty path is the entity itself; a found child's trailing segment is the path's last segment; an entity without children has none; a one-segment path finds the first child with that trailing segment, that stored entity itself (for longer paths see `GetChildSnoc`) |
| Entities.NewEntity | src/entity.rs:544-551 | a created entity is well-formed, carries the given trailing segment and has no properties |
| Entities.KeyIndex | src/entity.rs:122 | the position of the first property with the key; `None` exactly when there is none |
| Entities.FindByLast | src/entity.rs:477-479 | the position of the first entity with the trailing segment; `None` exactly when there is none |
| Entities.SwapRemove | src/entity.rs:191 | the last element takes the removed one's place; every other position is kept; the multiset loses exactly the removed element |
| Entities.SwapRemoveKeepsUnique | src/entity.rs:188-193 | removing a property keeps keys unique and leaves no property with the removed key |
| Entities.ChangedProps | src/entity.rs:157-194 | a property change keeps the keys of the list unique |
| Entities.UpdatedPropsMeaning | src/entity.rs:157-165 | after an update, the first property under the key is the given pointer; the list was replaced in place or grew by one; nothing else appears |
| Entities.DeletedPropsMeaning | src/entity.rs:188-194 | after a delete, the key is gone when keys were unique; the list shrank by one exactly when the key was present; nothing new appears |
| Entities.ChangedPropsKeepOtherKeys | src/entity.rs:156-194 | a property change leaves the property under every other key as it was |
| Entities.ReplacedKeepsTree | src/entity.rs:518-530 | replacing an entity by a well-formed one with the same trailing segment keeps the tree well-formed |
| Entities.AppendedKeepsTree | src/entity.rs:544-557 | appending a well-formed entity with a new trailing segment keeps the tree well-formed |
| Entities.SwapRemovedKeepsTree | src/entity.rs:480-483 | removing a top-level entity keeps the tree well-formed |
| Entities.SwapRemovedDistinct | src/entity.rs:480-483 | removing an entity keeps siblings' trailing segments distinct |
| Entities.SwapRemovedSegment | src/entity.rs:480-483 | after the removal, no sibling carries the removed entity's trailing segment |
| Entities.SwapRemovedKeepsOthers | src/entity.rs:480-483 | every entity with another trailing segment survives the removal |
| Entities.ResolveName | src/entity.rs:338-350 | the empty name resolves to nothing; a resolved entity's trailing segment is the name's last segment; a one-segment name resolves exactly when a top-level entity has that segment, and then to the first such entity itself (for longer names see `ResolveSnoc`) |
| Entities.GetChildSnoc | src/entity.rs:133-149 | a path one segment longer reaches the first child with that trailing segment of the entity the path reaches, and nothing when that entity inserts no document |
| Entities.ResolveSnoc | src/entity.rs:338-350 | a name one segment longer resolves to the first child with that trailing segment of the entity the name resolves to, and to nothing when that entity inserts no document (so `[1, 0]` resolves and `[1, 1]` does not when `[1]` inserts only `[0]`, tests/base.rs:286-289) |
| Entities.ResolveBelow | src/entity.rs:133-149 | below the top, resolving a name is following it from the entity that inserts the document |
| Entities.PreOrderShallow | src/entity.rs:609-614 | a walk that does not descend yields exactly the top-level entities, in order |
| Entities.PreOrderConcat | src/entity.rs:605-637 | the walk over two lists of siblings is the walk over the first followed by the walk over the second |
| Entities.PreOrderVisitsTop | src/entity.rs:605-637 | either walk visits every top-level entity |
| Entities.Copied | src/entity.rs:375-386 | copying yields at most one copy per visited entity |
| Entities.CopiedMeaning | src/entity.rs:375-386 | every copy comes from a visited entity with one of the names, and every such entity is copied, sharing its property pointers |
| Entities.PreOrderNamesSingle | src/entity.rs:546-551 | every entity a walk over a well-formed tree visits has a single-segment name |
| Entities.CopySelectsBySegment | src/entity.rs:375-386 | a name `[s]` selects every entity, at any depth, with trailing segment `s`; names that are not single segments select nothing |
| Replay.FindStorage | src/entity.rs:497 | the position of the first cached history of the document; `None` exactly when there is none |
| Replay.FreshStorage | src/entity.rs:306-313 | a newly opened history belongs to the document, is empty and has nothing applied |
| Replay.HistoryOfFound | src/entity.rs:493-510 | the log a cache holds for a document is the log of the entry the search finds, or empty |
| Replay.HistoriesAppendEmpty | src/entity.rs:498-505 | appending a fresh, empty history changes no document's log |
| Replay.SameHistoriesMeans | src/entity.rs:280-281 | two caches hold the same logs exactly when they agree on the log of every document |
| Replay.OpenStorage | src/entity.rs:493-510 | the history found is the cache's first entry for the document and the cache is unchanged; otherwise exactly one fresh entry is appended and returned; either way the cache holds the same logs and now has an entry |
| Replay.AppliedChange | src/entity.rs:151-196 | one property change keeps the entity's name and, on success, reports that name |
| Replay.DirectResult | src/entity.rs:156-194 | a change that inserts no document fails exactly when it appends an `INS_DOC` property that is not a document id; a success reports the entity alone, with one flag |
| Replay.Inserting | src/entity.rs:166-183 | a successful insertion fills the children and reports `AddProp` for the entity; a failed one leaves the entity as it was |
| Replay.AppliedProps | src/entity.rs:559-566 | the changes applied in order keep the name and, on success, report everything reported before and the entity's name |
| Replay.CreatedOrUpdated | src/entity.rs:512-571 | a record keeps the number of top-level entities, except that a single-segment name may add one |
| Replay.RecordOutcome | src/entity.rs:512-571 | the failures (empty name, no match for a nested name, a match without children) change nothing; a nested name whose first segment matches an entity with children replaces that entity's children by the record's outcome one level down; a single-segment name resolves afterwards, to the matched entity or to exactly one appended entity of that name, reported as created |
| Replay.Replayed | src/entity.rs:458-491 | replaying a log adds at most one top-level entity per record |
| Replay.ReplayCoversAcc | src/entity.rs:463-490 | a replay reports at least every flag already accumulated |
| Replay.ApplyChanges | src/entity.rs:151-196 | the method computes exactly `AppliedChange` |
| Replay.InsertDocument | src/entity.rs:166-183 | the method computes exactly `Inserting` |
| Replay.Find | src/entity.rs:477-479 | the linear search finds exactly `FindByLast` |
| Replay.EntityCreateOrUpdate | src/entity.rs:512-571 | the method computes exactly `CreatedOrUpdated` |
| Replay.ApplyTransactionPrivate | src/entity.rs:458-491 | the method computes exactly `Replayed` |
| Replay.ChangeIgnoresCache | src/entity.rs:166-178 | two caches with the same logs give one property change the same result and entity, and are left holding the same logs |
| Replay.DirectIgnoresCache | src/entity.rs:157-194 | a change that inserts no document neither reads nor changes the cache |
| Replay.InsertIgnoresCache | src/entity.rs:166-178 | the same for inserting a document |
| Replay.PropsIgnoreCache | src/entity.rs:559-566 | the same for the property changes of one record |
| Replay.RecordIgnoresCache | src/entity.rs:512-571 | the same for one entity record |
| Replay.ReplayIgnoresCache | src/entity.rs:458-491 | the same for a whole log |
| Replay.ChangeExtendsCache | src/entity.rs:166-178 | one property change only extends the cache, and every document keeps its log |
| Replay.InsertExtendsCache | src/entity.rs:493-510 | the same for inserting a document |
| Replay.PropsExtendCache | src/entity.rs:559-566 | the same for the property changes of one record |
| Replay.RecordExtendsCache | src/entity.rs:512-571 | the same for one entity record |
| Replay.ReplayExtendsCache | src/entity.rs:458-491 | the same for a whole log |
| Replay.ChangeKeepsTree | src/entity.rs:151-196 | one property change keeps an entity well-formed |
| Replay.InsertKeepsTree | src/entity.rs:166-183 | inserting a document keeps the entity well-formed, its children included |
| Replay.PropsKeepTree | src/entity.rs:559-566 | the property changes of a record keep the entity well-formed |
| Replay.RecordKeepsTree | src/entity.rs:512-571 | one entity record keeps the tree well-formed |
| Replay.ReplayKeepsTree | src/entity.rs:458-491 | replaying a log keeps the tree well-formed, also when it fails midway |
| Replay.DeletionKeepsTree | src/entity.rs:475-487 | a deletion keeps the tree well-formed |
| Replay.InsertionReplaysHistory | src/entity.rs:166-183 | a first `INS_DOC` property with a document id makes the children the replay, from empty, of that document's merged cached history; it fails exactly when that replay fails, and then the children stay as they were |
| Replay.UpdateStores | src/entity.rs:157-165 | after an update, the entity's property under the key is the given pointer |
| Replay.ChangeEffect | src/entity.rs:156-194 | an update stores the pointer and reports `UpdProp` when replacing or `AddProp` when appending; a non-document-id `INS_DOC` fails; a delete removes the key and always reports `DelProp`; only a first `INS_DOC` touches the children or the cache |
| Replay.ChangeKeepsOtherKeys | src/entity.rs:156-194 | a property change leaves every other key's property as it was |
| Replay.DeleteRemovesEntity | src/entity.rs:475-487 | a deletion removes the first top-level entity with the name's last segment (so `[0, 0]` removes the host `[0]`) and keeps every other one; it reports `Deleted` and ends the replay; with no match or an empty name it fails and changes nothing |
| Replay.TopRecordState | src/entity.rs:533-566 | a single-segment record changes the matching entity in place or appends a new one, and the name then resolves to it |
| Replay.NestedRecordState | src/entity.rs:512-571 | a record for a name whose proper prefix resolves to an entity with children afterwards resolves, at any depth, to its target as the record's property changes leave it: the entity the name resolved to before, or a new one created in the innermost document |
| Replay.UpdateThenRead | tests/base.rs:313-339 | after a record that sets (or, by `copy`, shares) a property on a name, top-level or nested below entities with children, that entity exists and holds the pointer itself under its key |
| Iteration.LookupLevel | src/entity.rs:581-599 | along valid parents, the lookup finds the sibling at the last position exactly when it is in range |
| Iteration.Lookup | src/entity.rs:581-599 | an empty position stack finds nothing; a single position finds the top-level entity there exactly when it is in range |
| Iteration.LevelPush | src/entity.rs:610-611 | descending into an entity with children makes them the siblings, and its later siblings come right after them |
| Iteration.ParentsPop | src/entity.rs:617-620 | dropping the last position leaves valid parents whose last one selects an entity with children |
| Iteration.VisitInto | src/entity.rs:609-611 | visiting an entity with children in a deep walk yields it, then the walk of its children |
| Iteration.VisitOver | src/entity.rs:612-614 | visiting an entity without descending yields it, then the walk from the next sibling |
| Iteration.LeaveStep | src/entity.rs:616-633 | when the siblings are exhausted, the walk ends with no parent, or continues at the parent's next sibling |
| Iteration.VisitPath | src/entity.rs:609-614 | one visit, on the position stack: the entity is the first of those still to come, and the stack moves into its children or to its next sibling |
| Iteration.ClimbPath | src/entity.rs:616-633 | climbing, on the position stack, keeps what is still to come, and the lookup at the parent's next sibling finds it exactly when it exists |
| Iteration.EntityIterator.constructor | src/entity.rs:329-335 | a new walk will yield the whole pre-order walk of the content |
| Iteration.EntityIterator.GetEntity | src/entity.rs:581-599 | following the positions one level at a time finds exactly what `Lookup` finds |
| Iteration.EntityIterator.Visit | src/entity.rs:609-614 | moving past the entity at the current position drops exactly that entity from what is still to come |
| Iteration.EntityIterator.Climb | src/entity.rs:617-629 | one climbing step keeps what is still to come, less the entity it visits |
| Iteration.EntityIterator.Next | src/entity.rs:605-637 | `next` yields the first entity still to come and drops it; once nothing is left it yields `None` for ever |
| Documents.Rebuilt | src/entity.rs:413-422 | rebuilding applies at most `n` transactions, and all of them exactly when no error occurred |
| Documents.RebuiltKeepsCache | src/entity.rs:413-422 | rebuilding yields a well-formed tree and only extends the cache, keeping every document's log |
| Documents.RebuiltUnfold | src/entity.rs:415-421 | one more transaction is replayed on the rebuilt content and cache |
| Documents.RebuiltStops | src/entity.rs:416-420 | once a transaction fails, later transactions change nothing |
| Documents.RebuiltPrefix | src/entity.rs:415-420 | rebuilding reads only the transactions it replays |
| Documents.RebuiltIgnoresCache | src/entity.rs:413-422 | a document's content depends only on its own log: caches with the same logs rebuild the same content, error and position |
| Documents.RebuiltStep | src/entity.rs:415-421 | rebuilding one transaction further is replaying it on the rebuilt content, with any cache holding the same logs |
| Documents.RebuiltAdvance | src/entity.rs:415-421 | one turn of the loop either rebuilds one transaction further or, on an error, is where the whole rebuild stops |
| Documents.RebuiltDone | src/entity.rs:404-425 | a finished rebuild is a well-formed tree; a successful one applied every transaction and is consistent with the cache it leaves |
| Documents.ReplayNext | src/entity.rs:415-421 | one round applies the next transaction and stays on the specification of rebuilding |
| Documents.ReplayHistory | src/entity.rs:413-422 | the loop's result is exactly `Rebuilt` of the target |
| Documents.Truncated | src/entity.rs:446 | truncating keeps a prefix of length `n`, or everything when there is less |
| Documents.Switched | src/entity.rs:304-320 | the current history becomes that of `id`: the first cached one, which trades places with the current one, or a fresh one, with the current one pushed onto the end of the cache |
| Documents.SwitchBack | tests/base.rs:192-206 | switching to a document the cache does not hold and back again restores the history left behind, with its undo position and counter, and caches the other one in its turn |
| Documents.Copies | src/entity.rs:394-396 | one `Update` per clipboard property, holding the same shared pointer |
| Documents.Document.constructor | src/entity.rs:285-300 | an empty document with an empty history and a transaction naming from `START_NAME`; it is consistent |
| Documents.Document.Undo | src/entity.rs:404-425 | a target outside the history fails with the overflow error and changes nothing; otherwise the content, cache, position and verdict are those of rebuilding the target, and a success leaves the document consistent |
| Documents.Document.RebuildTo | src/entity.rs:413-424 | clearing and replaying the first `target` transactions leaves exactly what `Rebuilt` gives |
| Documents.Document.Switch | src/entity.rs:303-327 | the current history becomes that of `id` and the content is rebuilt from it; on success the document is consistent and names continue from the new history's counter; on failure the open transaction is untouched |
| Documents.Document.SwapIn | src/entity.rs:304-320 | the storages are exchanged as `Switched` says; content and transaction are untouched |
| Documents.Document.Find | src/entity.rs:304 | the linear search finds exactly `FindStorage` |
| Documents.Document.Entities | src/entity.rs:329-335 | the iterator will yield the pre-order walk of the content |
| Documents.Document.GetEntity | src/entity.rs:338-350 | the entity found is `ResolveName` of the name |
| Documents.Document.GetProperty | src/entity.rs:353-359 | a value is returned exactly when the entity resolves and has the key with the requested kind, and it is that value |
| Documents.Document.CreateEntity | src/entity.rs:361-363 | the open transaction allocates the current name and appends its record; the handle is that record's position |
| Documents.Document.UpdateEntity | src/entity.rs:365-367 | an empty record for the name is appended; the handle is its position |
| Documents.Document.DeleteEntity | src/entity.rs:369-371 | the deletion of the name is appended to the open transaction |
| Documents.Document.AddProperty | src/transaction.rs:141-148 | through a handle, a fresh shared value is appended to that record only |
| Documents.Document.DeleteProperty | src/transaction.rs:150-154 | through a handle, the deletion of the key is appended to that record only |
| Documents.Document.CopyProperty | src/transaction.rs:156-161 | through a handle, an `Update` holding the given shared pointer is appended to that record only |
| Documents.Document.Copy | src/entity.rs:375-386 | the copies are those of the named entities of the deep walk, in walk order |
| Documents.Document.Paste | src/entity.rs:390-398 | each clipboard entity becomes a new record named by the next counter value, copying its shared pointers; the counter advances by the clipboard's size; earlier records are kept |
| Documents.Document.HistorySize | src/entity.rs:400-402 | the length of the history and the undo position |
| Documents.Document.ApplyTransaction | src/entity.rs:454-456 | the content and cache become the replay of the open transaction; the cache keeps every log; the tree stays well-formed |
| Documents.Document.CommitTransaction | src/entity.rs:428-451 | on success, the history is truncated at the undo position and the transaction appended; everything is applied; the counter is saved; a new transaction continues it; a consistent document stays consistent. On failure, history and transaction are untouched |
| Documents.CommitKeepsConsistent | src/entity.rs:428-451 | the truncated history plus the committed transaction rebuilds the content the commit produced |
| Documents.UndoRedoRestores | tests/base.rs:136-148 | undoing one transaction and redoing it rebuilds the same content |
| Documents.UndoneKeepsCache | src/entity.rs:404-425 | rebuilding one transaction fewer also succeeds and keeps the cache's logs |

## Left out

- Serialization (`TypeRegistry`, `EntityChanges::save`/`load`, src/transaction.rs:13-56 and 72-138) and the `fmt::Debug` implementations (src/entity.rs:44-109): stream I/O and formatting, with no effect on the engine.
- `Box<dyn Any>` payloads and `downcast_ref`: the payload is the closed datatype `Payload` (`i32`, `u32`, string). `get_property::<T>` becomes "the payload has the requested `Kind`". A document id is a `u32` payload.
- `Rc` reference counts: only the identity of a shared property value is modelled (an immutable class instance), not how many holders it has.
- `src/property.rs` is folded into module `Property`; `src/lib.rs` (module declarations and an empty test) is not part of this model.
- `Entity::insert_document` (src/entity.rs:198-200) is an empty stub; `PropertyIterator` (src/entity.rs:640-656) is unused.
- The `&mut EntityChanges` returned by `create_entity`/`update_entity` is modelled as the position of that record in the open transaction, and chained calls as methods taking that position.
- Replay.Inserting: the source recurses without bound through inserted documents and overflows its stack on a cycle of insertions. The model bounds the nesting depth by `MaxInsertionDepth` (64) and fails with `InsertionTooDeep` beyond it.
- Replay.CreatedOrUpdated: an entity record with an empty name panics in the source (`assert_eq!`, src/entity.rs:532); the model returns `Err(EmptyName)`.
- Documents.Document.Undo: `delta` is an unbounded integer, so the `isize` overflow of `applied + delta` is not modelled. A negative target wraps through the `usize` cast and fails the overflow check. This is modelled as `HistoryOverflow`, so the underflow check (src/entity.rs:409-411) is never reached.
- Transaction.Transaction.CreateEntity: the source panics when the counter is absent or empty, and the increment of the counter's last segment overflows `u32` (a panic with overflow checks, a wrap to 0 without them); all three are excluded by precondition here. The same holds for Documents.Document.CreateEntity and Documents.Document.Paste.
