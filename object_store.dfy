/** The object store: a database holding the object table and the tag table,
    whose synchronous operations save, delete, clear and load objects, and the
    request a caller builds field by field before executing it. Each write works
    on the transaction's copy of the tables and commits it at the end, so a step
    that throws leaves the tables as they were. */
module ObjectStore {
  import opened StoreTypes
  import opened WriteSpec
  import opened QuerySpec
  import opened Engine

  // ----- requests as values -----

  /** The fields of a request. */
  datatype Query = Query(
    otype: TypeDesc,
    ids: Option<seq<string>>,
    tagSelects: Option<seq<TagSelect>>,
    tagSelectionArgs: Option<seq<string>>,
    order: Option<SortOrder>,
    limit: int,
    truncate: bool,
    before: Option<int>,
    after: Option<int>)

  /** Which loader a request uses. */
  datatype Plan = ById | ByTags | ByRange

  /** ids first, then tag predicates, then the range loader. */
  function PlanOf(q: Query): (p: Plan)
    ensures p == ById <==> q.ids.Some? && |q.ids.value| > 0
    ensures p == ByTags <==> !(q.ids.Some? && |q.ids.value| > 0) && q.tagSelects.Some? && |q.tagSelects.value| > 0
    ensures p == ByRange <==> !(q.ids.Some? && |q.ids.value| > 0) && !(q.tagSelects.Some? && |q.tagSelects.value| > 0)
  {
    if q.ids.Some? && |q.ids.value| > 0 then ById
    else if q.tagSelects.Some? && |q.tagSelects.value| > 0 then ByTags
    else ByRange
  }

  /** The ids of a request's id list; the loader's OR of one clause per id does
      not depend on repeats or order. */
  function IdSet(ids: seq<string>): (s: set<string>)
    ensures forall x :: x in s <==> x in ids
    ensures |ids| > 0 ==> ids[0] in s
  {
    set x | x in ids
  }

  /** `r` is a possible result of the id loader for `ids`: null for a null id
      set; for a non-empty one, a load of the type's rows with those ids, without
      limit. What an empty id set loads is left open. */
  ghost predicate IdLoadOutcome(t: Tables, otype: TypeDesc, ids: Option<set<string>>, order: Option<SortOrder>, r: Option<seq<StoredObject>>)
  {
    && (ids.None? ==> r.None?)
    && (ids.Some? && ids.value != {} ==> r.Some? && IsLoad(t.objects, IdKeys(t.objects, otype, ids.value), order, 0, r.value))
  }

  /** `r` is a possible result of executing `q` on `t`, where `sel` is the id set
      the tag path computed (unused on the other paths). */
  ghost predicate LoadResult(compare: Comparator, t: Tables, q: Query, sel: Option<set<string>>, r: Option<seq<StoredObject>>)
  {
    if q.ids.Some? && |q.ids.value| > 0 then
      IdLoadOutcome(t, q.otype, Some(IdSet(q.ids.value)), q.order, r)
    else if q.tagSelects.Some? && |q.tagSelects.value| > 0 then
      && SelectionOutcome(compare, t.tags, q.otype, q.tagSelects, q.tagSelectionArgs.GetOr([]), q.limit, sel)
      && IdLoadOutcome(t, q.otype, sel, q.order, r)
    else
      r.Some? && IsLoad(t.objects, RangeKeys(t.objects, q.otype, q.before, q.after), q.order, q.limit, r.value)
  }

  /** The tables after executing `q` with result `r`: with truncate, the type is
      cleared and the result saved again; otherwise nothing changes. */
  function AfterExecute(t: Tables, q: Query, r: Option<seq<StoredObject>>, now: int): Tables
  {
    if q.truncate then SaveObjects(ClearType(t, q.otype.name), r, now) else t
  }

  /** What getFirst yields for an executed list. */
  function First(r: Option<seq<StoredObject>>): (f: Option<StoredObject>)
    ensures f.Some? <==> r.Some? && |r.value| > 0
    ensures f.Some? ==> f.value == r.value[0]
  {
    if r.None? || |r.value| == 0 then None else Some(r.value[0])
  }

  // ----- what executing a request yields -----

  /** Every object a load of a well-keyed table returns has the request's type,
      except in the one case left open: a tag selection that found no id. */
  lemma ResultHasType(compare: Comparator, t: Tables, q: Query, sel: Option<set<string>>, r: Option<seq<StoredObject>>)
    requires WellKeyed(t)
    requires LoadResult(compare, t, q, sel, r)
    requires PlanOf(q) != ByTags || sel != Some({})
    requires r.Some?
    ensures forall o :: o in r.value ==> o.otype.name == q.otype.name
  {
    if PlanOf(q) == ById {
      IdLoadProperties(t, q.otype, IdSet(q.ids.value), q.order, r.value);
    } else if PlanOf(q) == ByTags {
      IdLoadProperties(t, q.otype, sel.value, q.order, r.value);
    } else {
      RangeLoadProperties(t, q.otype, q.order, q.limit, q.before, q.after, r.value);
    }
  }

  /** On the id path the result is every stored object of the type whose id was
      added, and only those: limit, before and after are not applied. */
  lemma IdPathLoadsExactlyIds(compare: Comparator, t: Tables, q: Query, sel: Option<set<string>>, r: Option<seq<StoredObject>>)
    requires WellKeyed(t)
    requires LoadResult(compare, t, q, sel, r)
    requires q.ids.Some? && |q.ids.value| > 0
    ensures r.Some?
    ensures forall i :: 0 <= i < |r.value| ==> r.value[i].otype.name == q.otype.name && r.value[i].id in q.ids.value
    ensures forall k :: k in t.objects && k.typeName == q.otype.name && k.id in q.ids.value ==> t.objects[k].payload in r.value
  {
    IdLoadProperties(t, q.otype, IdSet(q.ids.value), q.order, r.value);
  }

  /** On the tag path without a limit the id set is IdsFromSelection; a null id
      set gives a null result; a non-empty one gives exactly the stored objects
      of the type with those ids. */
  lemma TagPathUnlimited(compare: Comparator, t: Tables, q: Query, sel: Option<set<string>>, r: Option<seq<StoredObject>>)
    requires WellKeyed(t)
    requires LoadResult(compare, t, q, sel, r)
    requires PlanOf(q) == ByTags && q.limit <= 0
    ensures sel == IdsFromSelection(compare, t.tags, q.otype, q.tagSelects, q.tagSelectionArgs.GetOr([]))
    ensures sel.None? ==> r.None?
    ensures sel.Some? && sel.value != {} ==>
      && r.Some?
      && (forall i :: 0 <= i < |r.value| ==> r.value[i].otype.name == q.otype.name && r.value[i].id in sel.value)
      && (forall k :: k in t.objects && k.typeName == q.otype.name && k.id in sel.value ==> t.objects[k].payload in r.value)
  {
    SelectionUnlimited(compare, t.tags, q.otype, q.tagSelects, q.tagSelectionArgs.GetOr([]), q.limit, sel);
    if sel.Some? && sel.value != {} {
      IdLoadProperties(t, q.otype, sel.value, q.order, r.value);
    }
  }

  /** On the tag path, with or without a limit, when every predicate matches some
      tag row the id set is non-null and every object loaded for it matches every
      predicate. */
  lemma TagPathSound(compare: Comparator, t: Tables, q: Query, sel: Option<set<string>>, r: Option<seq<StoredObject>>)
    requires WellKeyed(t)
    requires LoadResult(compare, t, q, sel, r)
    requires PlanOf(q) == ByTags
    requires q.tagSelectionArgs.Some? && |q.tagSelects.value| == |q.tagSelectionArgs.value|
    requires forall j :: 0 <= j < |q.tagSelects.value| ==>
      Candidates(compare, t.tags, q.otype, q.tagSelects.value[j], q.tagSelectionArgs.value[j]) != {}
    ensures sel.Some?
    ensures sel.value != {} ==> r.Some? && forall i, j :: 0 <= i < |r.value| && 0 <= j < |q.tagSelects.value| ==>
      r.value[i].id in Candidates(compare, t.tags, q.otype, q.tagSelects.value[j], q.tagSelectionArgs.value[j])
  {
    var sels, args := q.tagSelects.value, q.tagSelectionArgs.value;
    SelectionSound(compare, t.tags, q.otype, sels, args, q.limit, sel);
    if sel.value != {} {
      IdLoadProperties(t, q.otype, sel.value, q.order, r.value);
    }
  }

  /** With truncate the type's persisted keys afterwards are exactly the keys of
      the returned list, each holding its last object in the list re-stamped
      with `now` when its own ts is null or zero, other types keep all their
      rows, and a null result leaves the type wiped (the re-save of null rolls
      back). */
  lemma TruncateOutcome(compare: Comparator, t: Tables, q: Query, sel: Option<set<string>>, r: Option<seq<StoredObject>>, now: int)
    requires Consistent(t)
    requires LoadResult(compare, t, q, sel, r)
    requires PlanOf(q) != ByTags || sel != Some({})
    requires q.truncate
    ensures Consistent(AfterExecute(t, q, r, now))
    ensures r.None? ==> AfterExecute(t, q, r, now) == ClearType(t, q.otype.name)
    ensures r.Some? ==> forall k: ObjKey :: k.typeName == q.otype.name ==>
      (k in AfterExecute(t, q, r, now).objects <==> exists o :: o in r.value && KeyOf(o) == k)
    ensures r.Some? ==> forall i :: 0 <= i < |r.value| && (forall j :: i < j < |r.value| ==> KeyOf(r.value[j]) != KeyOf(r.value[i])) ==>
      && KeyOf(r.value[i]) in AfterExecute(t, q, r, now).objects
      && AfterExecute(t, q, r, now).objects[KeyOf(r.value[i])] == ObjRow(r.value[i], EffectiveTs(r.value[i].ts, now))
      && (NoNullPairs(r.value[i]) ==> TagsOf(AfterExecute(t, q, r, now).tags, KeyOf(r.value[i])) == PairRows(r.value[i]))
    ensures forall k: ObjKey :: k.typeName != q.otype.name ==>
      && (k in AfterExecute(t, q, r, now).objects <==> k in t.objects)
      && (k in t.objects ==> AfterExecute(t, q, r, now).objects[k] == t.objects[k])
      && TagsOf(AfterExecute(t, q, r, now).tags, k) == TagsOf(t.tags, k)
  {
    var name := q.otype.name;
    if r.None? {
      ClearTypeConsistent(t, name);
      forall k: ObjKey | k.typeName != name
        ensures k in ClearType(t, name).objects <==> k in t.objects
        ensures k in t.objects ==> ClearType(t, name).objects[k] == t.objects[k]
        ensures TagsOf(ClearType(t, name).tags, k) == TagsOf(t.tags, k)
      {
        ClearTypeRows(t, name, k);
      }
    } else {
      ResultHasType(compare, t, q, sel, r);
      TruncateSaved(t, name, r.value, now);
    }
  }

  /** Clearing a type and saving a list of that type: the rows of the type are
      exactly the list's, each key holding its last object of the list and
      exactly its pairs, and every other type keeps its rows. */
  lemma TruncateSaved(t: Tables, name: string, list: seq<StoredObject>, now: int)
    requires Consistent(t)
    requires forall o :: o in list ==> o.otype.name == name
    ensures Consistent(SaveObjects(ClearType(t, name), Some(list), now))
    ensures forall k: ObjKey :: k.typeName == name ==>
      (k in SaveObjects(ClearType(t, name), Some(list), now).objects <==> exists o :: o in list && KeyOf(o) == k)
    ensures forall i :: 0 <= i < |list| && (forall j :: i < j < |list| ==> KeyOf(list[j]) != KeyOf(list[i])) ==>
      && KeyOf(list[i]) in SaveObjects(ClearType(t, name), Some(list), now).objects
      && SaveObjects(ClearType(t, name), Some(list), now).objects[KeyOf(list[i])] == ObjRow(list[i], EffectiveTs(list[i].ts, now))
      && (NoNullPairs(list[i]) ==> TagsOf(SaveObjects(ClearType(t, name), Some(list), now).tags, KeyOf(list[i])) == PairRows(list[i]))
    ensures forall k: ObjKey :: k.typeName != name ==>
      && (k in SaveObjects(ClearType(t, name), Some(list), now).objects <==> k in t.objects)
      && (k in t.objects ==> SaveObjects(ClearType(t, name), Some(list), now).objects[k] == t.objects[k])
      && TagsOf(SaveObjects(ClearType(t, name), Some(list), now).tags, k) == TagsOf(t.tags, k)
  {
    var after := SaveObjects(ClearType(t, name), Some(list), now);
    ClearTypeConsistent(t, name);
    SaveObjectsConsistent(ClearType(t, name), Some(list), now);
    forall k: ObjKey | k.typeName == name
      ensures k in after.objects <==> exists o :: o in list && KeyOf(o) == k
    {
      TruncateLeavesExactly(t, name, list, now, k);
    }
    forall k: ObjKey | k.typeName != name
      ensures k in after.objects <==> k in t.objects
      ensures k in t.objects ==> after.objects[k] == t.objects[k]
      ensures TagsOf(after.tags, k) == TagsOf(t.tags, k)
    {
      TruncateLeavesExactly(t, name, list, now, k);
    }
    SavedListRows(ClearType(t, name), list, now);
  }

  /** Saving a list: each key holds its last object of the list, with its
      effective timestamp, and exactly its pairs. */
  lemma SavedListRows(base: Tables, list: seq<StoredObject>, now: int)
    ensures forall i :: 0 <= i < |list| && (forall j :: i < j < |list| ==> KeyOf(list[j]) != KeyOf(list[i])) ==>
      && KeyOf(list[i]) in SaveObjects(base, Some(list), now).objects
      && SaveObjects(base, Some(list), now).objects[KeyOf(list[i])] == ObjRow(list[i], EffectiveTs(list[i].ts, now))
      && (NoNullPairs(list[i]) ==> TagsOf(SaveObjects(base, Some(list), now).tags, KeyOf(list[i])) == PairRows(list[i]))
  {
    forall i | 0 <= i < |list| && (forall j :: i < j < |list| ==> KeyOf(list[j]) != KeyOf(list[i]))
      ensures KeyOf(list[i]) in SaveObjects(base, Some(list), now).objects
      ensures SaveObjects(base, Some(list), now).objects[KeyOf(list[i])] == ObjRow(list[i], EffectiveTs(list[i].ts, now))
      ensures NoNullPairs(list[i]) ==> TagsOf(SaveObjects(base, Some(list), now).tags, KeyOf(list[i])) == PairRows(list[i])
    {
      SaveObjectsRows(base, Some(list), now, KeyOf(list[i]));
    }
  }

  /** On the range path getFirst yields an object exactly when some stored
      object of the type lies within the bounds, and with an order it is the
      first of all of them: the newest under DESC, the oldest under ASC. */
  lemma FirstLeadsOrder(compare: Comparator, t: Tables, q: Query, sel: Option<set<string>>, r: Option<seq<StoredObject>>)
    requires WellKeyed(t)
    requires LoadResult(compare, t, q, sel, r)
    requires PlanOf(q) == ByRange
    ensures First(r).Some? <==> RangeKeys(t.objects, q.otype, q.before, q.after) != {}
    ensures First(r).Some? && q.order.Some? ==>
      forall k :: k in RangeKeys(t.objects, q.otype, q.before, q.after) ==> Precedes(t.objects, q.order.value, KeyOf(First(r).value), k)
  {
    var keys := RangeKeys(t.objects, q.otype, q.before, q.after);
    LoadIsScan(t, keys, q.order, q.limit, r.value);
    var ks := KeysOf(r.value);
    if keys != {} {
      var k :| k in keys;
      assert |ks| > 0 by {
        if !(q.limit > 0 && |ks| == q.limit) {
          assert k in ks;
        }
      }
    }
    if |ks| > 0 {
      assert ks[0] in keys;
      if q.order.Some? {
        forall k | k in keys ensures Precedes(t.objects, q.order.value, ks[0], k) {
          if k in ks {
            var i :| 0 <= i < |ks| && ks[i] == k;
            if i > 0 {
              assert Precedes(t.objects, q.order.value, ks[0], ks[i]);
            }
          }
        }
      }
    }
  }

  // ----- the database -----

  class Database {
    var objects: map<ObjKey, ObjRow>
    var tags: set<TagRow>
    /** How the engine compares a cast tag value with an argument. */
    const compare: Comparator

    function State(): Tables
      reads this
    {
      Tables(objects, tags)
    }

    ghost predicate Valid()
      reads this
    {
      Consistent(State())
    }

    /** Opening the store: the database file keeps whatever earlier runs
        saved, so the tables start as `t`. */
    constructor (compare: Comparator, t: Tables)
      requires Consistent(t)
      ensures State() == t
      ensures this.compare == compare
      ensures Valid()
    {
      objects := t.objects;
      tags := t.tags;
      this.compare := compare;
    }

    /** saveObjectsSync: each object is upserted with its effective timestamp, its
        tag rows are deleted and one row per pair is inserted through the tag
        content values reused across the whole batch. */
    method SaveObjectsSync(batch: Option<seq<StoredObject>>, now: int)
      requires Valid()
      modifies this
      ensures State() == SaveObjects(old(State()), batch, now)
      ensures Valid()
    {
      if batch.None? {
        // iterating a null collection throws inside the transaction
        return;
      }
      var list := batch.value;
      var objs, rows := objects, tags;
      var tagCvs: ContentValues := map[];
      var i := 0;
      while i < |list|
        invariant 0 <= i <= |list|
        invariant SaveRun(old(State()), list[..i], now) == SaveState(Tables(objs, rows), tagCvs)
      {
        objs, rows, tagCvs := SaveOne(objs, rows, tagCvs, list[i], now);
        SaveRunPrefix(old(State()), list, i, now);
        i := i + 1;
      }
      assert list[..i] == list;
      objects, tags := objs, rows;
      SaveObjectsConsistent(old(State()), batch, now);
    }

    /** One object of the batch: its row is upserted with its effective
        timestamp, its tag rows are deleted, and its pairs are inserted. */
    static method SaveOne(objs: map<ObjKey, ObjRow>, rows: set<TagRow>, cv: ContentValues, o: StoredObject, now: int)
      returns (objs': map<ObjKey, ObjRow>, rows': set<TagRow>, cv': ContentValues)
      ensures SaveState(Tables(objs', rows'), cv') == SaveStep(SaveState(Tables(objs, rows), cv), o, now)
    {
      var k := KeyOf(o);
      objs' := objs[k := ObjRow(o, EffectiveTs(o.ts, now))];
      rows', cv' := DeleteTagsOf(rows, k), cv;
      if o.tags.Some? && |o.tags.value| > 0 {
        rows', cv' := InsertTagRows(rows', cv', o, o.tags.value);
      }
    }

    /** The tag rows of one object: for each pair the four columns are put into
        the reused content values, then the row they hold is inserted. */
    static method InsertTagRows(rows: set<TagRow>, cv: ContentValues, o: StoredObject, pairs: seq<TagPair>)
      returns (rows': set<TagRow>, cv': ContentValues)
      ensures TagWrite(rows', cv') == InsertTags(rows, cv, o, pairs)
    {
      rows', cv' := rows, cv;
      var j := 0;
      while j < |pairs|
        invariant 0 <= j <= |pairs|
        invariant InsertTags(rows, cv, o, pairs[..j]) == TagWrite(rows', cv')
      {
        assert pairs[..j + 1][..j] == pairs[..j];
        cv' := SetStringContentValue(cv', IdColumn, Some(o.id));
        cv' := SetStringContentValue(cv', TypeColumn, Some(o.otype.name));
        cv' := SetStringContentValue(cv', TagColumn, pairs[j].key);
        cv' := SetStringContentValue(cv', ValueColumn, pairs[j].value);
        rows' := rows' + {RowOf(cv')};
        j := j + 1;
      }
      assert pairs[..j] == pairs;
    }

    /** deleteObjectsSync(types, ids): whereArgs holds (types[i], ids[i]) at 2i
        and 2i + 1; the rows of those pairs go from both tables. */
    method DeletePairsSync(types: Option<seq<TypeDesc>>, ids: Option<seq<string>>)
      requires Valid()
      modifies this
      ensures State() == DeletePairs(old(State()), types, ids)
      ensures Valid()
    {
      if types.None? || ids.None? || |types.value| == 0 || |ids.value| == 0 {
        return;
      }
      var n := |ids.value|;
      var whereArgs := new string[2 * n];
      var i := 0;
      while i < n
        modifies whereArgs
        invariant 0 <= i <= n
        invariant i <= |types.value|
        invariant forall j :: 0 <= j < i ==> whereArgs[2 * j] == types.value[j].name && whereArgs[2 * j + 1] == ids.value[j]
      {
        if i >= |types.value| {
          // types[i] is out of bounds: the transaction rolls back
          return;
        }
        whereArgs[2 * i] := types.value[i].name;
        whereArgs[2 * i + 1] := ids.value[i];
        i := i + 1;
      }
      WhereKeysOfPairs(whereArgs[..], types.value, ids.value);
      var t' := DeleteKeys(State(), WhereKeys(whereArgs[..]));
      objects, tags := t'.objects, t'.tags;
      DeleteKeysConsistent(old(State()), WhereKeys(whereArgs[..]));
    }

    /** deleteObjectsSync(objects): the types and ids of the objects, in order,
        handed to the pair delete. */
    method DeleteObjectsSync(objs: Option<seq<StoredObject>>)
      requires Valid()
      modifies this
      ensures State() == DeleteObjects(old(State()), objs)
      ensures Valid()
    {
      if objs.None? || |objs.value| == 0 {
        return;
      }
      var list := objs.value;
      var types := new TypeDesc[|list|];
      var ids := new string[|list|];
      var i := 0;
      while i < |list|
        modifies types, ids
        invariant 0 <= i <= |list|
        invariant forall j :: 0 <= j < i ==> types[j] == list[j].otype && ids[j] == list[j].id
      {
        types[i] := list[i].otype;
        ids[i] := list[i].id;
        i := i + 1;
      }
      DeleteObjectsByPairs(State(), list, types[..], ids[..]);
      DeletePairsSync(Some(types[..]), Some(ids[..]));
    }

    /** deleteObjectSync: the pair delete of one object; nothing for null. */
    method DeleteObjectSync(obj: Option<StoredObject>)
      requires Valid()
      modifies this
      ensures obj.None? ==> State() == old(State())
      ensures obj.Some? ==> State() == DeleteKeys(old(State()), {KeyOf(obj.value)})
      ensures Valid()
    {
      if obj.None? {
        return;
      }
      assert PairKeys([obj.value.otype], [obj.value.id]) == {KeyOf(obj.value)} by {
        assert KeyOf(obj.value) == ObjKey([obj.value.otype][0].name, [obj.value.id][0]);
      }
      DeletePairsSync(Some([obj.value.otype]), Some([obj.value.id]));
    }

    /** clearObjectsOfTypeSync: every row of the type goes from both tables. */
    method ClearObjectsOfTypeSync(otype: TypeDesc)
      requires Valid()
      modifies this
      ensures State() == ClearType(old(State()), otype.name)
      ensures Valid()
    {
      var t' := ClearType(State(), otype.name);
      objects, tags := t'.objects, t'.tags;
      ClearTypeConsistent(old(State()), otype.name);
    }

    /** Reading the json column of every row of a cursor, in cursor order. */
    method ReadCursor(ks: seq<ObjKey>) returns (r: seq<StoredObject>)
      requires forall i :: 0 <= i < |ks| ==> ks[i] in objects
      ensures r == Payloads(objects, ks)
    {
      r := [];
      var i := 0;
      while i < |ks|
        invariant 0 <= i <= |ks|
        invariant r == Payloads(objects, ks[..i])
      {
        assert ks[..i + 1][..i] == ks[..i];
        r := r + [objects[ks[i]].payload];
        i := i + 1;
      }
      assert ks[..i] == ks;
    }

    /** loadObjects(type, order, limit, before, after): type = ? with the
        optional ts bounds, in `order`, with a LIMIT when limit > 0. */
    method LoadRange(otype: TypeDesc, order: Option<SortOrder>, limit: int, before: Option<int>, after: Option<int>)
      returns (r: seq<StoredObject>)
      ensures IsLoad(objects, RangeKeys(objects, otype, before, after), order, limit, r)
    {
      var selection := set k | k in objects && k.typeName == otype.name;
      if before.Some? {
        selection := set k | k in selection && objects[k].ts <= before.value;
      }
      if after.Some? {
        selection := set k | k in selection && objects[k].ts >= after.value;
      }
      assert selection == RangeKeys(objects, otype, before, after);
      var ks := QueryObjects(objects, selection, order, limit);
      r := ReadCursor(ks);
    }

    /** loadObjects(type, ids, order): (id = ? AND type = ?) OR ... for each id,
        in `order`, without limit; null for a null id set. */
    method LoadByIds(otype: TypeDesc, ids: Option<set<string>>, order: Option<SortOrder>)
      returns (r: Option<seq<StoredObject>>)
      ensures IdLoadOutcome(State(), otype, ids, order, r)
    {
      if ids.None? {
        // ids.size() throws; the loader catches it and returns null
        return None;
      }
      if ids.value == {} {
        r :| true;
        return;
      }
      var selectionArgs: seq<ObjKey> := [];
      var rest := ids.value;
      while rest != {}
        invariant rest <= ids.value
        invariant forall k :: k in selectionArgs <==> k.typeName == otype.name && k.id in ids.value && k.id !in rest
        decreases |rest|
      {
        var id :| id in rest;
        selectionArgs := selectionArgs + [ObjKey(otype.name, id)];
        rest := rest - {id};
      }
      var selection := set k | k in objects && k in selectionArgs;
      assert selection == IdKeys(objects, otype, ids.value);
      var ks := QueryObjects(objects, selection, order, 0);
      var list := ReadCursor(ks);
      r := Some(list);
    }

    /** getIdsFromSelection: one DISTINCT scan per predicate, with the limit
        applied to each; the accumulator starts as the first scan's ids and is
        intersected with each next one; the loop stops when the accumulator is
        empty or a scan finds nothing. */
    method GetIdsFromSelection(otype: TypeDesc, sels: Option<seq<TagSelect>>, args: seq<string>, limit: int)
      returns (r: Option<set<string>>)
      ensures SelectionOutcome(compare, tags, otype, sels, args, limit, r)
      ensures limit <= 0 ==> r == IdsFromSelection(compare, tags, otype, sels, args)
    {
      if sels.None? || |sels.value| == 0 || |sels.value| != |args| {
        return None;
      }
      ghost var cands := CandidateList(compare, tags, otype, sels.value, args);
      ghost var scans: seq<set<string>> := [];
      var finalIds: Option<set<string>> := None;
      var i := 0;
      while i < |sels.value|
        invariant 0 <= i <= |sels.value|
        invariant |scans| == i
        invariant forall j :: 0 <= j < i ==> scans[j] != {} && LimitedScan(cands[j], limit, scans[j])
        invariant NoEarlyStop(scans)
        invariant finalIds == Meet(scans)
      {
        if finalIds.Some? && finalIds.value == {} {
          break;
        }
        var currentIds := ScanTags(compare, tags, otype, sels.value[i], args[i], limit);
        if currentIds == {} {
          break;
        }
        if finalIds.None? {
          finalIds := Some(currentIds);
        } else {
          finalIds := Some(finalIds.value * currentIds);
        }
        MeetSnoc(scans, currentIds);
        NoEarlyStopSnoc(scans, currentIds);
        scans := scans + [currentIds];
        i := i + 1;
      }
      r := finalIds;
      assert ScanTrace(cands, limit, scans);
      if limit <= 0 {
        SelectionUnlimited(compare, tags, otype, sels, args, limit, r);
      }
    }
  }

  /** Outcome of adding a tag predicate. */
  datatype Outcome = Ok | Unsupported(message: string)

  // ----- the request builder -----

  class Request {
    const db: Database
    const otype: TypeDesc
    var ids: Option<seq<string>>
    var tagSelects: Option<seq<TagSelect>>
    var tagSelectionArgs: Option<seq<string>>
    var tsOrdering: Option<SortOrder>
    var limit: int
    var truncate: bool
    var before: Option<int>
    var after: Option<int>

    function Snapshot(): Query
      reads this
    {
      Query(otype, ids, tagSelects, tagSelectionArgs, tsOrdering, limit, truncate, before, after)
    }

    /** Tag predicates and their arguments are added together. */
    predicate Valid()
      reads this
    {
      && (tagSelects.Some? <==> tagSelectionArgs.Some?)
      && (tagSelects.Some? ==> |tagSelects.value| == |tagSelectionArgs.value|)
    }

    constructor (db: Database, otype: TypeDesc)
      ensures this.db == db
      ensures Snapshot() == Query(otype, None, None, None, None, 0, false, None, None)
      ensures Valid()
    {
      this.db := db;
      this.otype := otype;
      ids, tagSelects, tagSelectionArgs, tsOrdering := None, None, None, None;
      limit, truncate, before, after := 0, false, None, None;
    }

    /** addIds: appends the ids; a null or empty list changes nothing. No check
        against tag predicates is made. */
    method AddIds(newIds: Option<seq<string>>)
      requires Valid()
      modifies this
      ensures Snapshot() == if newIds.None? || |newIds.value| == 0 then old(Snapshot())
                            else old(Snapshot()).(ids := Some(old(ids).GetOr([]) + newIds.value))
      ensures Valid()
    {
      if newIds.None? || |newIds.value| == 0 {
        return;
      }
      if ids.None? {
        ids := Some([]);
      }
      ids := Some(ids.value + newIds.value);
    }

    /** addId: appends one id. No check against tag predicates is made. */
    method AddId(id: string)
      requires Valid()
      modifies this
      ensures Snapshot() == old(Snapshot()).(ids := Some(old(ids).GetOr([]) + [id]))
      ensures Valid()
    {
      if ids.None? {
        ids := Some([]);
      }
      ids := Some(ids.value + [id]);
    }

    /** tagWithOperator: refused when ids are present, otherwise appends exactly
        one predicate and its argument. */
    method TagWithOperator(tag: string, op: string, value: string, kind: SqliteType) returns (outcome: Outcome)
      requires Valid()
      modifies this
      ensures outcome.Unsupported? <==> old(ids).Some? && |old(ids).value| > 0
      ensures outcome.Unsupported? ==> Snapshot() == old(Snapshot())
      ensures outcome.Ok? ==> Snapshot() == old(Snapshot()).(
        tagSelects := Some(old(tagSelects).GetOr([]) + [TagSelect(tag, op, kind)]),
        tagSelectionArgs := Some(old(tagSelectionArgs).GetOr([]) + [value]))
      ensures Valid()
    {
      if ids.Some? && |ids.value| > 0 {
        return Unsupported("Can't have both tags and ids");
      }
      if tagSelects.None? {
        tagSelects := Some([]);
        tagSelectionArgs := Some([]);
      }
      tagSelects := Some(tagSelects.value + [TagSelect(tag, op, kind)]);
      tagSelectionArgs := Some(tagSelectionArgs.value + [value]);
      outcome := Ok;
    }

    /** tagEquals(tag, value): text equality. */
    method TagEquals(tag: string, value: string) returns (outcome: Outcome)
      requires Valid()
      modifies this
      ensures outcome.Unsupported? <==> old(ids).Some? && |old(ids).value| > 0
      ensures outcome.Unsupported? ==> Snapshot() == old(Snapshot())
      ensures outcome.Ok? ==> Snapshot() == old(Snapshot()).(
        tagSelects := Some(old(tagSelects).GetOr([]) + [TagSelect(tag, "=", Text)]),
        tagSelectionArgs := Some(old(tagSelectionArgs).GetOr([]) + [value]))
      ensures Valid()
    {
      outcome := TagEqualsAs(tag, value, Text);
    }

    /** tagEquals(tag, value, kind): equality after casting to `kind`; `value` is
        the argument's toString(). */
    method TagEqualsAs(tag: string, value: string, kind: SqliteType) returns (outcome: Outcome)
      requires Valid()
      modifies this
      ensures outcome.Unsupported? <==> old(ids).Some? && |old(ids).value| > 0
      ensures outcome.Unsupported? ==> Snapshot() == old(Snapshot())
      ensures outcome.Ok? ==> Snapshot() == old(Snapshot()).(
        tagSelects := Some(old(tagSelects).GetOr([]) + [TagSelect(tag, "=", kind)]),
        tagSelectionArgs := Some(old(tagSelectionArgs).GetOr([]) + [value]))
      ensures Valid()
    {
      outcome := TagWithOperator(tag, "=", value, kind);
    }

    method TagGt(tag: string, value: string, kind: SqliteType) returns (outcome: Outcome)
      requires Valid()
      modifies this
      ensures outcome.Unsupported? <==> old(ids).Some? && |old(ids).value| > 0
      ensures outcome.Unsupported? ==> Snapshot() == old(Snapshot())
      ensures outcome.Ok? ==> Snapshot() == old(Snapshot()).(
        tagSelects := Some(old(tagSelects).GetOr([]) + [TagSelect(tag, ">", kind)]),
        tagSelectionArgs := Some(old(tagSelectionArgs).GetOr([]) + [value]))
      ensures Valid()
    {
      outcome := TagWithOperator(tag, ">", value, kind);
    }

    method TagLt(tag: string, value: string, kind: SqliteType) returns (outcome: Outcome)
      requires Valid()
      modifies this
      ensures outcome.Unsupported? <==> old(ids).Some? && |old(ids).value| > 0
      ensures outcome.Unsupported? ==> Snapshot() == old(Snapshot())
      ensures outcome.Ok? ==> Snapshot() == old(Snapshot()).(
        tagSelects := Some(old(tagSelects).GetOr([]) + [TagSelect(tag, "<", kind)]),
        tagSelectionArgs := Some(old(tagSelectionArgs).GetOr([]) + [value]))
      ensures Valid()
    {
      outcome := TagWithOperator(tag, "<", value, kind);
    }

    /** tsGtEq: the lower ts bound. */
    method TsGtEq(timestampMs: int)
      requires Valid()
      modifies this
      ensures Snapshot() == old(Snapshot()).(after := Some(timestampMs))
      ensures Valid()
    {
      after := Some(timestampMs);
    }

    /** tsLtEq: the upper ts bound. */
    method TsLtEq(timestampMs: int)
      requires Valid()
      modifies this
      ensures Snapshot() == old(Snapshot()).(before := Some(timestampMs))
      ensures Valid()
    {
      before := Some(timestampMs);
    }

    /** orderByTs: the ts ordering, null for none. */
    method OrderByTs(order: Option<SortOrder>)
      requires Valid()
      modifies this
      ensures Snapshot() == old(Snapshot()).(order := order)
      ensures Valid()
    {
      tsOrdering := order;
    }

    /** truncateRest: after loading, keep only what was loaded of the type. */
    method TruncateRest()
      requires Valid()
      modifies this
      ensures Snapshot() == old(Snapshot()).(truncate := true)
      ensures Valid()
    {
      truncate := true;
    }

    method Limit(l: int)
      requires Valid()
      modifies this
      ensures Snapshot() == old(Snapshot()).(limit := l)
      ensures Valid()
    {
      limit := l;
    }

    /** executeSync: loads by ids, else by tag predicates, else by range; then,
        with truncate, clears the type and saves the result again. `sel` is the
        id set the tag path computed. */
    method ExecuteSync(now: int) returns (r: Option<seq<StoredObject>>, ghost sel: Option<set<string>>)
      requires Valid() && db.Valid()
      modifies db
      ensures LoadResult(db.compare, old(db.State()), Snapshot(), sel, r)
      ensures db.State() == AfterExecute(old(db.State()), Snapshot(), r, now)
      ensures db.Valid()
    {
      sel := None;
      if ids.Some? && |ids.value| > 0 {
        r := db.LoadByIds(otype, Some(IdSet(ids.value)), tsOrdering);
      } else if tagSelects.Some? && |tagSelects.value| > 0 {
        var found := db.GetIdsFromSelection(otype, tagSelects, tagSelectionArgs.value, limit);
        sel := found;
        r := db.LoadByIds(otype, found, tsOrdering);
      } else {
        var list := db.LoadRange(otype, tsOrdering, limit, before, after);
        r := Some(list);
      }
      if truncate {
        db.ClearObjectsOfTypeSync(otype);
        db.SaveObjectsSync(r, now);
      }
    }

    /** getFirst: element 0 of the executed list, null for a null or empty one. */
    method GetFirst(now: int) returns (first: Option<StoredObject>, ghost r: Option<seq<StoredObject>>, ghost sel: Option<set<string>>)
      requires Valid() && db.Valid()
      modifies db
      ensures LoadResult(db.compare, old(db.State()), Snapshot(), sel, r)
      ensures db.State() == AfterExecute(old(db.State()), Snapshot(), r, now)
      ensures first == First(r)
      ensures db.Valid()
    {
      var list;
      list, sel := ExecuteSync(now);
      r := list;
      if list.None? || |list.value| == 0 {
        first := None;
      } else {
        first := Some(list.value[0]);
      }
    }
  }
}
