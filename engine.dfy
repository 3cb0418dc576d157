/** The two queries the store asks of its SQLite engine, as methods that may
    return any answer the query admits: a scan of the object table over a
    selection, with ORDER BY ts and LIMIT, and a SELECT DISTINCT id scan of the
    tag table for one predicate, with LIMIT. Without ORDER BY the engine's row
    order is left open, and which rows a LIMIT keeps is left open too. */
module Engine {
  import opened StoreTypes
  import opened QuerySpec

  /** A non-empty set of rows has one that may come first under `order`. */
  lemma {:induction false} FirstExists(objects: map<ObjKey, ObjRow>, s: set<ObjKey>, order: SortOrder)
    requires s != {} && s <= objects.Keys
    ensures exists k :: k in s && forall k' :: k' in s ==> Precedes(objects, order, k, k')
    decreases |s|
  {
    var x :| x in s;
    if s != {x} {
      FirstExists(objects, s - {x}, order);
      var m :| m in s - {x} && forall k' :: k' in s - {x} ==> Precedes(objects, order, m, k');
      if Precedes(objects, order, m, x) {
        assert forall k' :: k' in s ==> Precedes(objects, order, m, k');
      } else {
        forall k' | k' in s ensures Precedes(objects, order, x, k') {
          if k' != x {
            assert Precedes(objects, order, m, k');
          }
        }
      }
    } else {
      assert forall k' :: k' in s ==> k' == x;
    }
  }

  /** The cursor of a query over the rows `keys` with an optional ORDER BY ts and
      LIMIT (none when limit <= 0): rows are taken one at a time, the next one in
      order among those not yet taken, until the limit or the selection runs out. */
  method QueryObjects(objects: map<ObjKey, ObjRow>, keys: set<ObjKey>, order: Option<SortOrder>, limit: int)
    returns (ks: seq<ObjKey>)
    requires keys <= objects.Keys
    ensures IsScan(objects, keys, order, limit, ks)
  {
    ks := [];
    var remaining := keys;
    while remaining != {} && !(limit > 0 && |ks| == limit)
      invariant remaining <= keys
      invariant forall i :: 0 <= i < |ks| ==> ks[i] in keys && ks[i] !in remaining
      invariant forall i, j :: 0 <= i < j < |ks| ==> ks[i] != ks[j]
      invariant forall k :: k in keys ==> k in remaining || k in ks
      invariant limit > 0 ==> |ks| <= limit
      invariant order.Some? ==> forall i, j :: 0 <= i < j < |ks| ==> Precedes(objects, order.value, ks[i], ks[j])
      invariant order.Some? ==> forall i, k :: 0 <= i < |ks| && k in remaining ==> Precedes(objects, order.value, ks[i], k)
      decreases |remaining|
    {
      var k;
      if order.None? {
        k :| k in remaining;
      } else {
        FirstExists(objects, remaining, order.value);
        k :| k in remaining && forall k' :: k' in remaining ==> Precedes(objects, order.value, k, k');
      }
      ks := ks + [k];
      remaining := remaining - {k};
    }
  }

  /** SELECT DISTINCT id of the tag rows matching one predicate, with LIMIT (none
      when limit <= 0): matching ids are taken until the limit or the matches
      run out. */
  method ScanTags(compare: Comparator, tags: set<TagRow>, otype: TypeDesc, sel: TagSelect, arg: string, limit: int)
    returns (ids: set<string>)
    ensures LimitedScan(Candidates(compare, tags, otype, sel, arg), limit, ids)
  {
    var rest := Candidates(compare, tags, otype, sel, arg);
    ids := {};
    while rest != {} && !(limit > 0 && |ids| == limit)
      invariant ids + rest == Candidates(compare, tags, otype, sel, arg)
      invariant ids !! rest
      invariant limit > 0 ==> |ids| <= limit
      decreases |rest|
    {
      var x :| x in rest;
      ids := ids + {x};
      rest := rest - {x};
    }
  }
}
