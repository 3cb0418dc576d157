/** The write path of the object store as functions from the old tables to the
    new ones: saving a batch (upsert of object rows, replacement of their tag
    rows), deleting by key, clearing a type. Each write runs in one transaction
    that commits only after its last step, so each is "compute the new tables,
    or leave them as they were". */
module WriteSpec {
  import opened StoreTypes

  /** The tag rows that belong to the object with key `k`. */
  function TagsOf(tags: set<TagRow>, k: ObjKey): set<TagRow>
  {
    set r | r in tags && KeyOfTag(r) == k
  }

  /** No tag row refers to a missing object row. */
  ghost predicate NoOrphanTags(t: Tables)
  {
    forall r :: r in t.tags ==> KeyOfTag(r) in t.objects
  }

  /** Every object row sits under its own object's (type name, id). */
  ghost predicate WellKeyed(t: Tables)
  {
    forall k :: k in t.objects ==> KeyOf(t.objects[k].payload) == k
  }

  ghost predicate Consistent(t: Tables)
  {
    NoOrphanTags(t) && WellKeyed(t)
  }

  /** The tag rows an object with non-null tag halves is meant to have. */
  function PairRows(o: StoredObject): set<TagRow>
  {
    RowsOfPairs(o, o.tags.GetOr([]))
  }

  ghost predicate NoNullPairs(o: StoredObject)
  {
    forall p :: p in o.tags.GetOr([]) ==> p.key.Some? && p.value.Some?
  }

  // ----- saving -----

  /** The four puts that prepare the tag row of one pair. */
  function PutTagPair(cv: ContentValues, o: StoredObject, p: TagPair): (r: ContentValues)
    ensures IdColumn in r && r[IdColumn] == o.id
    ensures TypeColumn in r && r[TypeColumn] == o.otype.name
    ensures p.key.Some? ==> ColumnValue(r, TagColumn) == p.key
    ensures p.value.Some? ==> ColumnValue(r, ValueColumn) == p.value
    ensures p.key.None? ==> ColumnValue(r, TagColumn) == ColumnValue(cv, TagColumn)
    ensures p.value.None? ==> ColumnValue(r, ValueColumn) == ColumnValue(cv, ValueColumn)
  {
    var cv1 := SetStringContentValue(cv, IdColumn, Some(o.id));
    var cv2 := SetStringContentValue(cv1, TypeColumn, Some(o.otype.name));
    var cv3 := SetStringContentValue(cv2, TagColumn, p.key);
    SetStringContentValue(cv3, ValueColumn, p.value)
  }

  /** The tag row inserted from the content values. */
  function RowOf(cv: ContentValues): TagRow
    requires IdColumn in cv && TypeColumn in cv
  {
    TagRow(cv[TypeColumn], cv[IdColumn], ColumnValue(cv, TagColumn), ColumnValue(cv, ValueColumn))
  }

  /** The tag table together with the reused content values. */
  datatype TagWrite = TagWrite(tags: set<TagRow>, cv: ContentValues)

  /** Inserting one row per pair, in order, through the reused content values. */
  function InsertTags(tags: set<TagRow>, cv: ContentValues, o: StoredObject, pairs: seq<TagPair>): TagWrite
    decreases |pairs|
  {
    if pairs == [] then TagWrite(tags, cv)
    else
      var w := InsertTags(tags, cv, o, pairs[..|pairs| - 1]);
      var cv' := PutTagPair(w.cv, o, pairs[|pairs| - 1]);
      TagWrite(w.tags + {RowOf(cv')}, cv')
  }

  /** Deleting the tag rows of key `k`. */
  function DeleteTagsOf(tags: set<TagRow>, k: ObjKey): set<TagRow>
  {
    set r | r in tags && KeyOfTag(r) != k
  }

  /** The tables in the middle of a batch, with the tag content values the
      batch keeps reusing. */
  datatype SaveState = SaveState(tables: Tables, tagCvs: ContentValues)

  /** Saving one object of the batch. */
  function SaveStep(s: SaveState, o: StoredObject, now: int): SaveState
  {
    var k := KeyOf(o);
    var objects := s.tables.objects[k := ObjRow(o, EffectiveTs(o.ts, now))];
    var kept := DeleteTagsOf(s.tables.tags, k);
    if o.tags.Some? && |o.tags.value| > 0 then
      var w := InsertTags(kept, s.tagCvs, o, o.tags.value);
      SaveState(Tables(objects, w.tags), w.cv)
    else
      SaveState(Tables(objects, kept), s.tagCvs)
  }

  /** Saving the objects of `batch` in order, starting from empty content values. */
  function SaveRun(t: Tables, batch: seq<StoredObject>, now: int): SaveState
    decreases |batch|
  {
    if batch == [] then SaveState(t, map[])
    else SaveStep(SaveRun(t, batch[..|batch| - 1], now), batch[|batch| - 1], now)
  }

  /** Saving one more object of a batch is one more save step. */
  lemma SaveRunPrefix(t: Tables, batch: seq<StoredObject>, i: nat, now: int)
    requires i < |batch|
    ensures SaveRun(t, batch[..i + 1], now) == SaveStep(SaveRun(t, batch[..i], now), batch[i], now)
  {
    assert batch[..i + 1][..i] == batch[..i];
  }

  /** The tables after saveObjectsSync; a null batch throws and rolls back. */
  function SaveObjects(t: Tables, batch: Option<seq<StoredObject>>, now: int): Tables
  {
    if batch.None? then t else SaveRun(t, batch.value, now).tables
  }

  // ----- deleting -----

  function DeleteKeys(t: Tables, keys: set<ObjKey>): Tables
  {
    Tables(map k | k in t.objects && k !in keys :: t.objects[k],
           set r | r in t.tags && KeyOfTag(r) !in keys)
  }

  /** The keys named by the whereArgs of a delete: (type, id) at 2j and 2j+1. */
  function WhereKeys(w: seq<string>): set<ObjKey>
    decreases |w|
  {
    if |w| < 2 then {} else WhereKeys(w[..|w| - 2]) + {ObjKey(w[|w| - 2], w[|w| - 1])}
  }

  /** The (types[i], ids[i]) pairs for i below |ids|. */
  function PairKeys(types: seq<TypeDesc>, ids: seq<string>): set<ObjKey>
    requires |ids| <= |types|
  {
    set i | 0 <= i < |ids| :: ObjKey(types[i].name, ids[i])
  }

  /** The tables after deleteObjectsSync(types, ids): nothing for null or empty
      arrays; nothing either when `types` is shorter than `ids`, where the loop
      throws an index error and the transaction rolls back; otherwise the rows
      of the first |ids| pairs go from both tables. */
  function DeletePairs(t: Tables, types: Option<seq<TypeDesc>>, ids: Option<seq<string>>): Tables
  {
    if types.None? || ids.None? || |types.value| == 0 || |ids.value| == 0 then t
    else if |types.value| < |ids.value| then t
    else DeleteKeys(t, PairKeys(types.value, ids.value))
  }

  /** The tables after deleteObjectsSync(objects). */
  function DeleteObjects(t: Tables, objs: Option<seq<StoredObject>>): Tables
  {
    if objs.None? || |objs.value| == 0 then t
    else DeleteKeys(t, set o | o in objs.value :: KeyOf(o))
  }

  /** The tables after clearObjectsOfTypeSync. */
  function ClearType(t: Tables, typeName: string): Tables
  {
    Tables(map k | k in t.objects && k.typeName != typeName :: t.objects[k],
           set r | r in t.tags && r.typeName != typeName)
  }

  // ----- what saving does -----

  /** The rows meant for `pairs` of object `o`. */
  function RowsOfPairs(o: StoredObject, pairs: seq<TagPair>): set<TagRow>
  {
    set p | p in pairs :: TagRow(o.otype.name, o.id, p.key, p.value)
  }

  lemma RowsOfPairsSnoc(o: StoredObject, front: seq<TagPair>, last: TagPair)
    ensures RowsOfPairs(o, front + [last]) == RowsOfPairs(o, front) + {TagRow(o.otype.name, o.id, last.key, last.value)}
  {
    var pairs := front + [last];
    assert forall p :: p in pairs <==> p in front || p == last;
  }

  /** Inserting the rows of one object keeps every earlier row and adds rows of
      that object's key only. */
  lemma {:induction false} InsertTagsKeys(tags: set<TagRow>, cv: ContentValues, o: StoredObject, pairs: seq<TagPair>)
    ensures tags <= InsertTags(tags, cv, o, pairs).tags
    ensures forall r :: r in InsertTags(tags, cv, o, pairs).tags && r !in tags ==> KeyOfTag(r) == KeyOf(o)
    decreases |pairs|
  {
    if pairs != [] {
      InsertTagsKeys(tags, cv, o, pairs[..|pairs| - 1]);
    }
  }

  /** When no tag half is null, inserting adds exactly one row per pair,
      whatever the reused content values held before. */
  lemma {:induction false} InsertTagsExact(tags: set<TagRow>, cv: ContentValues, o: StoredObject, pairs: seq<TagPair>)
    requires forall p :: p in pairs ==> p.key.Some? && p.value.Some?
    ensures InsertTags(tags, cv, o, pairs).tags == tags + RowsOfPairs(o, pairs)
    decreases |pairs|
  {
    if pairs != [] {
      var front, last := pairs[..|pairs| - 1], pairs[|pairs| - 1];
      assert pairs == front + [last];
      InsertTagsExact(tags, cv, o, front);
      RowsOfPairsSnoc(o, front, last);
    }
  }

  /** One save step replaces the tag rows of the saved key and no others. */
  lemma SaveStepTags(s: SaveState, o: StoredObject, now: int, k: ObjKey)
    ensures k != KeyOf(o) ==> TagsOf(SaveStep(s, o, now).tables.tags, k) == TagsOf(s.tables.tags, k)
    ensures k == KeyOf(o) && NoNullPairs(o) ==> TagsOf(SaveStep(s, o, now).tables.tags, k) == PairRows(o)
    ensures forall r :: r in SaveStep(s, o, now).tables.tags ==>
              r in s.tables.tags || KeyOfTag(r) == KeyOf(o)
  {
    var kept := DeleteTagsOf(s.tables.tags, KeyOf(o));
    if o.tags.Some? && |o.tags.value| > 0 {
      InsertTagsKeys(kept, s.tagCvs, o, o.tags.value);
      if NoNullPairs(o) {
        InsertTagsExact(kept, s.tagCvs, o, o.tags.value);
      }
    }
  }

  /** Saving a batch leaves the rows of every key outside the batch as they were. */
  lemma {:induction false} SaveRunKeepsOtherKeys(t: Tables, batch: seq<StoredObject>, now: int, k: ObjKey)
    requires forall o :: o in batch ==> KeyOf(o) != k
    ensures k in SaveRun(t, batch, now).tables.objects <==> k in t.objects
    ensures k in t.objects ==> SaveRun(t, batch, now).tables.objects[k] == t.objects[k]
    ensures TagsOf(SaveRun(t, batch, now).tables.tags, k) == TagsOf(t.tags, k)
    decreases |batch|
  {
    if batch != [] {
      var front := batch[..|batch| - 1];
      assert forall o :: o in front ==> o in batch;
      SaveRunKeepsOtherKeys(t, front, now, k);
      SaveStepTags(SaveRun(t, front, now), batch[|batch| - 1], now, k);
    }
  }

  /** The row of a saved key holds the last object of the batch with that key,
      with its effective timestamp, and its tag rows are exactly that object's
      pairs (none for a null or empty list) when no tag half is null. */
  lemma {:induction false} SaveRunLastWins(t: Tables, batch: seq<StoredObject>, now: int, i: nat)
    requires i < |batch|
    requires forall j :: i < j < |batch| ==> KeyOf(batch[j]) != KeyOf(batch[i])
    ensures KeyOf(batch[i]) in SaveRun(t, batch, now).tables.objects
    ensures SaveRun(t, batch, now).tables.objects[KeyOf(batch[i])] == ObjRow(batch[i], EffectiveTs(batch[i].ts, now))
    ensures NoNullPairs(batch[i]) ==> TagsOf(SaveRun(t, batch, now).tables.tags, KeyOf(batch[i])) == PairRows(batch[i])
    decreases |batch|
  {
    var front, last := batch[..|batch| - 1], batch[|batch| - 1];
    SaveStepTags(SaveRun(t, front, now), last, now, KeyOf(batch[i]));
    if i < |batch| - 1 {
      SaveRunLastWins(t, front, now, i);
    }
  }

  /** A save step keeps both store invariants and adds the saved key. */
  lemma SaveStepConsistent(s: SaveState, o: StoredObject, now: int)
    requires Consistent(s.tables)
    ensures Consistent(SaveStep(s, o, now).tables)
    ensures SaveStep(s, o, now).tables.objects.Keys == s.tables.objects.Keys + {KeyOf(o)}
  {
    var s' := SaveStep(s, o, now);
    forall r | r in s'.tables.tags
      ensures KeyOfTag(r) in s'.tables.objects
    {
      SaveStepTags(s, o, now, KeyOfTag(r));
    }
  }

  /** Saving keeps both store invariants; the saved keys are added. */
  lemma {:induction false} SaveRunConsistent(t: Tables, batch: seq<StoredObject>, now: int)
    requires Consistent(t)
    ensures Consistent(SaveRun(t, batch, now).tables)
    ensures SaveRun(t, batch, now).tables.objects.Keys == t.objects.Keys + set o | o in batch :: KeyOf(o)
    decreases |batch|
  {
    if batch != [] {
      var front, last := batch[..|batch| - 1], batch[|batch| - 1];
      SaveRunConsistent(t, front, now);
      SaveStepConsistent(SaveRun(t, front, now), last, now);
      BatchKeysSnoc(batch);
    }
  }

  /** The keys of a batch are those of all but its last object plus the last's. */
  lemma BatchKeysSnoc(batch: seq<StoredObject>)
    requires batch != []
    ensures (set o | o in batch :: KeyOf(o)) == (set o | o in batch[..|batch| - 1] :: KeyOf(o)) + {KeyOf(batch[|batch| - 1])}
  {
    var front, last := batch[..|batch| - 1], batch[|batch| - 1];
    assert batch == front + [last];
    assert forall o :: o in batch <==> o in front || o == last;
  }

  /** The row and tag rows of every saved key come from the last object of the
      batch with that key; rows of other keys are untouched; a null batch changes
      nothing. */
  lemma SaveObjectsRows(t: Tables, batch: Option<seq<StoredObject>>, now: int, k: ObjKey)
    ensures batch.None? ==> SaveObjects(t, batch, now) == t
    ensures batch.Some? && (forall o :: o in batch.value ==> KeyOf(o) != k) ==>
      && (k in SaveObjects(t, batch, now).objects <==> k in t.objects)
      && (k in t.objects ==> SaveObjects(t, batch, now).objects[k] == t.objects[k])
      && TagsOf(SaveObjects(t, batch, now).tags, k) == TagsOf(t.tags, k)
    ensures forall i :: 0 <= i < |batch.GetOr([])| && KeyOf(batch.value[i]) == k &&
                        (forall j :: i < j < |batch.value| ==> KeyOf(batch.value[j]) != k) ==>
      && k in SaveObjects(t, batch, now).objects
      && SaveObjects(t, batch, now).objects[k] == ObjRow(batch.value[i], EffectiveTs(batch.value[i].ts, now))
      && (NoNullPairs(batch.value[i]) ==> TagsOf(SaveObjects(t, batch, now).tags, k) == PairRows(batch.value[i]))
  {
    if batch.Some? {
      if forall o :: o in batch.value ==> KeyOf(o) != k {
        SaveRunKeepsOtherKeys(t, batch.value, now, k);
      }
      forall i | 0 <= i < |batch.value| && KeyOf(batch.value[i]) == k &&
                 (forall j :: i < j < |batch.value| ==> KeyOf(batch.value[j]) != k)
        ensures k in SaveObjects(t, batch, now).objects
        ensures SaveObjects(t, batch, now).objects[k] == ObjRow(batch.value[i], EffectiveTs(batch.value[i].ts, now))
        ensures NoNullPairs(batch.value[i]) ==> TagsOf(SaveObjects(t, batch, now).tags, k) == PairRows(batch.value[i])
      {
        SaveRunLastWins(t, batch.value, now, i);
      }
    }
  }

  /** Saving keeps both store invariants. */
  lemma SaveObjectsConsistent(t: Tables, batch: Option<seq<StoredObject>>, now: int)
    requires Consistent(t)
    ensures Consistent(SaveObjects(t, batch, now))
  {
    if batch.Some? {
      SaveRunConsistent(t, batch.value, now);
    }
  }

  /** A pair whose value is null gets the value put for the previous pair of
      the batch, even one of another object. */
  lemma NullTagValueIsInherited()
    ensures var person := TypeDesc("person", "person");
      var a := StoredObject(person, "a", Some([TagPair(Some("color"), Some("red"))]), Some(1), "");
      var b := StoredObject(person, "b", Some([TagPair(Some("size"), None)]), Some(2), "");
      TagsOf(SaveObjects(Tables(map[], {}), Some([a, b]), 0).tags, ObjKey("person", "b")) ==
        {TagRow("person", "b", Some("size"), Some("red"))}
  {
    var person := TypeDesc("person", "person");
    var a := StoredObject(person, "a", Some([TagPair(Some("color"), Some("red"))]), Some(1), "");
    var b := StoredObject(person, "b", Some([TagPair(Some("size"), None)]), Some(2), "");
    var s1 := SaveRun(Tables(map[], {}), [a], 0);
    assert [a, b][..1] == [a];
    assert [a][..0] == [];
    assert SaveRun(Tables(map[], {}), [], 0) == SaveState(Tables(map[], {}), map[]);
    assert s1 == SaveStep(SaveRun(Tables(map[], {}), [], 0), a, 0);
    var pa := [TagPair(Some("color"), Some("red"))];
    assert pa[..0] == [];
    var w := InsertTags(DeleteTagsOf({}, KeyOf(a)), map[], a, pa);
    assert w.tags == {RowOf(PutTagPair(map[], a, pa[0]))};
    assert s1.tables.tags == {TagRow("person", "a", Some("color"), Some("red"))};
    assert ColumnValue(s1.tagCvs, ValueColumn) == Some("red");
    var s2 := SaveStep(s1, b, 0);
    var pb := [TagPair(Some("size"), None)];
    assert pb[..0] == [];
    assert s2.tables.tags == {TagRow("person", "a", Some("color"), Some("red")),
                              TagRow("person", "b", Some("size"), Some("red"))};
  }

  // ----- what deleting and clearing do -----

  /** Deleting by a key set removes exactly the object rows and tag rows of those
      keys, so it leaves no orphan tag row, and keeps every other row. */
  lemma DeleteKeysRows(t: Tables, keys: set<ObjKey>, k: ObjKey)
    ensures k in DeleteKeys(t, keys).objects <==> k in t.objects && k !in keys
    ensures k in DeleteKeys(t, keys).objects ==> DeleteKeys(t, keys).objects[k] == t.objects[k]
    ensures TagsOf(DeleteKeys(t, keys).tags, k) == if k in keys then {} else TagsOf(t.tags, k)
  {
  }

  /** Deleting by a key set keeps both store invariants. */
  lemma DeleteKeysConsistent(t: Tables, keys: set<ObjKey>)
    requires Consistent(t)
    ensures Consistent(DeleteKeys(t, keys))
  {
  }

  /** Clearing a type removes every object and tag row of that type and keeps
      every row of other types. */
  lemma ClearTypeRows(t: Tables, typeName: string, k: ObjKey)
    ensures k.typeName == typeName ==> k !in ClearType(t, typeName).objects && TagsOf(ClearType(t, typeName).tags, k) == {}
    ensures k.typeName != typeName ==>
      && (k in ClearType(t, typeName).objects <==> k in t.objects)
      && (k in t.objects ==> ClearType(t, typeName).objects[k] == t.objects[k])
      && TagsOf(ClearType(t, typeName).tags, k) == TagsOf(t.tags, k)
  {
  }

  /** Clearing a type keeps both store invariants. */
  lemma ClearTypeConsistent(t: Tables, typeName: string)
    requires Consistent(t)
    ensures Consistent(ClearType(t, typeName))
  {
  }

  /** The whereArgs filled pair by pair name exactly the pairs' keys. */
  lemma {:induction false} WhereKeysOfPairs(w: seq<string>, types: seq<TypeDesc>, ids: seq<string>)
    requires |ids| <= |types| && |w| == 2 * |ids|
    requires forall j :: 0 <= j < |ids| ==> w[2 * j] == types[j].name && w[2 * j + 1] == ids[j]
    ensures WhereKeys(w) == PairKeys(types, ids)
    decreases |ids|
  {
    if |ids| > 0 {
      var n := |ids| - 1;
      assert w[..|w| - 2][..2 * n] == w[..2 * n];
      WhereKeysOfPairs(w[..|w| - 2], types, ids[..n]);
      assert forall x :: x in PairKeys(types, ids) <==> x in PairKeys(types, ids[..n]) || x == ObjKey(types[n].name, ids[n]) by {
        forall x | x in PairKeys(types, ids) ensures x in PairKeys(types, ids[..n]) || x == ObjKey(types[n].name, ids[n]) {
          var i :| 0 <= i < |ids| && x == ObjKey(types[i].name, ids[i]);
          if i < n { assert ids[..n][i] == ids[i]; }
        }
        forall x | x in PairKeys(types, ids[..n]) ensures x in PairKeys(types, ids) {
          var i :| 0 <= i < n && x == ObjKey(types[i].name, ids[..n][i]);
          assert ids[..n][i] == ids[i];
        }
      }
    }
  }

  /** Deleting a list of objects is deleting the pairs of their types and ids. */
  lemma DeleteObjectsByPairs(t: Tables, objs: seq<StoredObject>, types: seq<TypeDesc>, ids: seq<string>)
    requires |types| == |ids| == |objs|
    requires forall i :: 0 <= i < |objs| ==> types[i] == objs[i].otype && ids[i] == objs[i].id
    ensures DeletePairs(t, Some(types), Some(ids)) == DeleteObjects(t, Some(objs))
  {
    if |objs| > 0 {
      assert PairKeys(types, ids) == set o | o in objs :: KeyOf(o) by {
        forall x | x in PairKeys(types, ids) ensures x in set o | o in objs :: KeyOf(o) {
          var i :| 0 <= i < |ids| && x == ObjKey(types[i].name, ids[i]);
          assert objs[i] in objs;
        }
        forall x | x in (set o | o in objs :: KeyOf(o)) ensures x in PairKeys(types, ids) {
          var o :| o in objs && x == KeyOf(o);
          var i :| 0 <= i < |objs| && objs[i] == o;
          assert x == ObjKey(types[i].name, ids[i]);
        }
      }
    }
  }

  /** Truncating to a result (clearing the type, then saving the result, whose
      objects all have that type) leaves exactly the result's keys persisted for
      the type, with no tag rows of any other key of it, and touches no other type. */
  lemma TruncateLeavesExactly(t: Tables, typeName: string, list: seq<StoredObject>, now: int, k: ObjKey)
    requires Consistent(t)
    requires forall o :: o in list ==> o.otype.name == typeName
    ensures Consistent(SaveObjects(ClearType(t, typeName), Some(list), now))
    ensures k.typeName == typeName ==>
      (k in SaveObjects(ClearType(t, typeName), Some(list), now).objects <==> exists o :: o in list && KeyOf(o) == k)
    ensures k.typeName == typeName && (forall o :: o in list ==> KeyOf(o) != k) ==>
      TagsOf(SaveObjects(ClearType(t, typeName), Some(list), now).tags, k) == {}
    ensures k.typeName != typeName ==>
      && (k in SaveObjects(ClearType(t, typeName), Some(list), now).objects <==> k in t.objects)
      && (k in t.objects ==> SaveObjects(ClearType(t, typeName), Some(list), now).objects[k] == t.objects[k])
      && TagsOf(SaveObjects(ClearType(t, typeName), Some(list), now).tags, k) == TagsOf(t.tags, k)
  {
    var c := ClearType(t, typeName);
    ClearTypeRows(t, typeName, k);
    SaveRunConsistent(c, list, now);
    if forall o :: o in list ==> KeyOf(o) != k {
      SaveRunKeepsOtherKeys(c, list, now, k);
    }
  }
}
