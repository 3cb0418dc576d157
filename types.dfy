/** Values shared by the object store: the caller's objects, the rows of the two
    tables, the tag predicates of a request, and the reusable content values the
    write path fills column by column. */
module StoreTypes {

  /** A Java reference that may be null. */
  datatype Option<+T> = None | Some(value: T) {
    function GetOr(default: T): T
    {
      match this
      case Some(v) => v
      case None => default
    }
  }

  /** A stored type descriptor: `name` is what getTypeName() returns (the
      partition key of both tables), `text` is what toString() returns. */
  datatype TypeDesc = TypeDesc(name: string, text: string)

  /** One searchable tag of an object; either half may be null. */
  datatype TagPair = TagPair(key: Option<string>, value: Option<string>)

  /** An object handed to the store. `content` stands for every other field the
      serialiser writes into the json column; the object itself is the payload. */
  datatype StoredObject = StoredObject(
    otype: TypeDesc,
    id: string,
    tags: Option<seq<TagPair>>,
    ts: Option<int>,
    content: string)

  /** Primary key of the object table. */
  datatype ObjKey = ObjKey(typeName: string, id: string)

  /** An object row: the serialised object and the effective timestamp column. */
  datatype ObjRow = ObjRow(payload: StoredObject, ts: int)

  /** A tag row; a column the insert did not set holds SQL NULL (None). */
  datatype TagRow = TagRow(typeName: string, id: string, tag: Option<string>, value: Option<string>)

  /** The persisted state: the object table and the tag table. */
  datatype Tables = Tables(objects: map<ObjKey, ObjRow>, tags: set<TagRow>)

  datatype SortOrder = Asc | Desc

  /** The kind a tag value is cast to before it is compared. */
  datatype SqliteType = Text | Integer | Real

  /** One tag predicate: the row's tag equals `tag` and
      CAST(value AS kind) `op` the predicate's argument. */
  datatype TagSelect = TagSelect(tag: string, op: string, kind: SqliteType)

  /** The engine's comparison of a cast tag value with an argument:
      (op, kind, stored value or NULL, argument). */
  type Comparator = (string, SqliteType, Option<string>, string) -> bool

  /** Columns of the tag table, as keys of a content-values map. */
  datatype Column = IdColumn | TypeColumn | TagColumn | ValueColumn

  /** A reusable column-to-value map holding the next row to insert. */
  type ContentValues = map<Column, string>

  function KeyOf(o: StoredObject): ObjKey
  {
    ObjKey(o.otype.name, o.id)
  }

  function KeyOfTag(r: TagRow): ObjKey
  {
    ObjKey(r.typeName, r.id)
  }

  /** The timestamp written to the ts column: the object's own unless it is
      null or zero, in which case the clock reading `now`. */
  function EffectiveTs(ts: Option<int>, now: int): (r: int)
    ensures ts.Some? && ts.value != 0 ==> r == ts.value
    ensures r == 0 ==> now == 0
  {
    if ts.None? || ts.value == 0 then now else ts.value
  }

  /** Puts `value` under `column`, except that a null value leaves whatever the
      map already held there, possibly a value put for an earlier row. */
  function SetStringContentValue(cv: ContentValues, column: Column, value: Option<string>): (r: ContentValues)
    ensures value.Some? ==> column in r && r[column] == value.value
    ensures value.None? ==> r == cv
    ensures forall c :: c != column ==> (c in r <==> c in cv)
    ensures forall c :: c != column && c in cv ==> r[c] == cv[c]
  {
    if value.Some? then cv[column := value.value] else cv
  }

  /** The value a column of the inserted row gets: NULL when never put. */
  function ColumnValue(cv: ContentValues, column: Column): Option<string>
  {
    if column in cv then Some(cv[column]) else None
  }
}
