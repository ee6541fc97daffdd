/** modules/Entry.js: a time entry is an EVENT or a RANGE in a category. Its setters guard
    the relation between the type, the start and the end; an insert needs a type and a
    category and starts the entry when it has no start yet; an update writes the modified
    props. `startFor`, `stopFor` and `logFor` build on these over the category's open ranges.

    The `entry` table is a class holding its rows in id order. Times are milliseconds since
    the epoch in the record and whole seconds in the table, which is what the `YYYY-MM-DD
    HH:mm:ss` format keeps of them. */
module Entries {
  import opened Wrappers
  import opened TimeError
  import ArrayHelper

  /** The two entry types, `'event'` and `'range'`. */
  datatype EntryType = Event | Range

  /** A time prop: `undefined`, `null`, or an instant in milliseconds. */
  datatype TimeVal = Undefined | Null | At(ms: int)

  /** The names `_modifiedProps` records. */
  datatype EntryProp = CategoryIdProp | TypeProp | StartedAtProp | EndedAtProp

  /** What the `category` setter accepts: an id, or a Category object (its id undefined until saved). */
  datatype CategoryArg = CategoryNumber(n: int) | CategoryObject(categoryId: Option<int>)

  /** A row of the `entry` table joined with its type name. */
  datatype EntryRow = EntryRow(id: int, entryType: EntryType, categoryId: int, startedAt: Option<int>, endedAt: Option<int>)

  /** The `data` object the constructor copies its fields from. */
  datatype EntryData = EntryData(id: Option<int>, entryType: Option<EntryType>, categoryId: Option<int>,
                                 startedAt: TimeVal, endedAt: TimeVal)

  const NoEntryData := EntryData(None, None, None, Undefined, Undefined)

  /** The columns `updateRecord` writes; an inner `None` category is `undefined`, which the
      query builder leaves out, while a `None` time is written as NULL. */
  datatype EntryUpdate = EntryUpdate(entryType: Option<EntryType>, categoryId: Option<Option<int>>,
                                     startedAt: Option<Option<int>>, endedAt: Option<Option<int>>)

  // ---------------------------------------------------------------------------
  // helpers/date.js

  /** `toDb(date)`: null for a missing date, otherwise the whole second it falls in. */
  function ToDb(t: TimeVal): (r: Option<int>)
    ensures r.None? <==> !t.At?
    ensures t.At? ==> r.value * 1000 <= t.ms < r.value * 1000 + 1000
  {
    if t.At? then Some(t.ms / 1000) else None
  }

  /** A column read back into a record. */
  function FromDb(column: Option<int>): (r: TimeVal)
    ensures !r.Undefined?
  {
    if column.Some? then At(column.value * 1000) else Null
  }

  /** `fromDb(date)`: the getter's view of a time prop, null when it is missing. */
  function Instant(t: TimeVal): (r: Option<int>)
    ensures r.Some? <==> t.At?
    ensures r.Some? ==> r.value == t.ms
  {
    if t.At? then Some(t.ms) else None
  }

  /** Storing a value read from the table stores the same value. */
  lemma ToDbFromDb(column: Option<int>)
    ensures ToDb(FromDb(column)) == column
  {
  }

  /** Reading back a stored instant gives it to the second. */
  lemma FromDbToDb(ms: int)
    ensures FromDb(ToDb(At(ms))).At?
    ensures FromDb(ToDb(At(ms))).ms <= ms < FromDb(ToDb(At(ms))).ms + 1000
  {
  }

  function RowData(row: EntryRow): EntryData
  {
    EntryData(Some(row.id), Some(row.entryType), Some(row.categoryId), FromDb(row.startedAt), FromDb(row.endedAt))
  }

  // ---------------------------------------------------------------------------
  // Queries

  /** `fetchRecords({ id }, 1)`: the first row with the id. */
  function Fetch(rows: seq<EntryRow>, id: int): (r: Result<EntryRow>)
    ensures r.Ok? <==> exists i :: 0 <= i < |rows| && rows[i].id == id
    ensures r.Ok? ==> r.value in rows && r.value.id == id
    ensures r.Err? ==> r.error == NotFound
    decreases |rows|
  {
    if |rows| == 0 then Err(NotFound)
    else if rows[0].id == id then Ok(rows[0])
    else
      var r := Fetch(rows[1..], id);
      assert forall i :: 1 <= i < |rows| ==> rows[i] == rows[1..][i - 1];
      r
  }

  /** A RANGE of the category that has not ended. */
  predicate IsOpenRange(row: EntryRow, category: int)
  {
    row.categoryId == category && row.entryType == Range && row.endedAt.None?
  }

  /** `findFor({ category, type: RANGE, ended_at: null })`: the open ranges, in table order. */
  function OpenRanges(rows: seq<EntryRow>, category: int): (r: seq<EntryRow>)
    ensures |r| <= |rows|
    ensures forall e :: e in r <==> e in rows && IsOpenRange(e, category)
    ensures r == [] <==> forall i :: 0 <= i < |rows| ==> !IsOpenRange(rows[i], category)
    decreases |rows|
  {
    if |rows| == 0 then []
    else (if IsOpenRange(rows[0], category) then [rows[0]] else []) + OpenRanges(rows[1..], category)
  }

  /** The open ranges of appended rows follow those already there. */
  lemma {:induction false} OpenRangesAppend(rows: seq<EntryRow>, more: seq<EntryRow>, category: int)
    ensures OpenRanges(rows + more, category) == OpenRanges(rows, category) + OpenRanges(more, category)
    decreases |rows|
  {
    if |rows| == 0 {
      assert rows + more == more;
    } else {
      assert (rows + more)[1..] == rows[1..] + more;
      OpenRangesAppend(rows[1..], more, category);
    }
  }

  // ---------------------------------------------------------------------------
  // updateRecord's data

  /** The `data` object `updateRecord` builds from the modified props. */
  function UpdateFor(modified: seq<EntryProp>, entryType: Option<EntryType>, categoryId: Option<int>,
                     startedAt: TimeVal, endedAt: TimeVal): EntryUpdate
  {
    EntryUpdate(
      if TypeProp in modified then entryType else None,
      if CategoryIdProp in modified then Some(categoryId) else None,
      if StartedAtProp in modified then Some(ToDb(startedAt)) else None,
      if EndedAtProp in modified then Some(ToDb(endedAt)) else None)
  }

  /** `arrayHelper.removeAll(props, prop)` as `updateRecord` uses it: what is left is the
      other props. */
  method RemoveProp(props: seq<EntryProp>, prop: EntryProp) returns (rest: seq<EntryProp>)
    ensures forall p :: p in rest <==> p in props && p != prop
  {
    ArrayHelper.RemoveAllMembers(props, prop);
    rest := ArrayHelper.RemoveAll(props, prop);
  }

  /** `updateRecord` lines 35-54: the type and the two times are taken out of the list one by
      one with `removeAll`; what is left (the category) is copied prop by prop. */
  method BuildEntryUpdate(modified: seq<EntryProp>, entryType: Option<EntryType>, categoryId: Option<int>,
                          startedAt: TimeVal, endedAt: TimeVal)
    returns (data: EntryUpdate, remaining: seq<EntryProp>)
    ensures data == UpdateFor(modified, entryType, categoryId, startedAt, endedAt)
    ensures forall p :: p in remaining <==> p == CategoryIdProp && p in modified
    ensures TypeProp !in modified && StartedAtProp !in modified && EndedAtProp !in modified ==> remaining == modified
  {
    ghost var spec := UpdateFor(modified, entryType, categoryId, startedAt, endedAt);
    data := EntryUpdate(None, None, None, None);
    remaining := modified;
    if TypeProp in remaining {
      data := data.(entryType := entryType);
      remaining := RemoveProp(remaining, TypeProp);
    }
    if StartedAtProp in remaining {
      data := data.(startedAt := Some(ToDb(startedAt)));
      remaining := RemoveProp(remaining, StartedAtProp);
    }
    if EndedAtProp in remaining {
      data := data.(endedAt := Some(ToDb(endedAt)));
      remaining := RemoveProp(remaining, EndedAtProp);
    }
    for k := 0 to |remaining|
      invariant data == spec.(categoryId := if CategoryIdProp in remaining[..k] then Some(categoryId) else None)
    {
      assert remaining[..k + 1] == remaining[..k] + [remaining[k]];
      if remaining[k] == CategoryIdProp {
        data := data.(categoryId := Some(categoryId));
      }
    }
    assert remaining[..|remaining|] == remaining;
  }

  /** An update with no column left once the undefined values are dropped: the query
      builder rejects it ("Empty .update() call detected") and no row is written. */
  predicate WritesNothing(data: EntryUpdate)
  {
    data.entryType.None? && (data.categoryId.None? || data.categoryId.value.None?) &&
    data.startedAt.None? && data.endedAt.None?
  }

  /** The update of a modified entry writes nothing exactly when its only modified prop is
      the category and that category is an unsaved one, whose id is undefined. */
  lemma EmptyUpdateOnlyForUndefinedCategory(modified: seq<EntryProp>, entryType: Option<EntryType>, categoryId: Option<int>,
                                            startedAt: TimeVal, endedAt: TimeVal)
    requires modified != []
    requires TypeProp in modified ==> entryType.Some?
    ensures WritesNothing(UpdateFor(modified, entryType, categoryId, startedAt, endedAt)) <==>
            (forall i :: 0 <= i < |modified| ==> modified[i] == CategoryIdProp) && categoryId.None?
  {
    if forall i :: 0 <= i < |modified| ==> modified[i] == CategoryIdProp {
      assert modified[0] in modified;
    } else {
      var i :| 0 <= i < |modified| && modified[i] != CategoryIdProp;
      assert modified[i] in modified;
    }
  }

  function UpdatedRow(row: EntryRow, data: EntryUpdate): EntryRow
  {
    EntryRow(
      row.id,
      if data.entryType.Some? then data.entryType.value else row.entryType,
      if data.categoryId.Some? && data.categoryId.value.Some? then data.categoryId.value.value else row.categoryId,
      if data.startedAt.Some? then data.startedAt.value else row.startedAt,
      if data.endedAt.Some? then data.endedAt.value else row.endedAt)
  }

  /** `db('entry').update(data).where('id', id)`: the same query as Categories.ApplyUpdate,
      over the rows of the `entry` table. */
  function ApplyUpdate(rows: seq<EntryRow>, id: int, data: EntryUpdate): (r: seq<EntryRow>)
    ensures |r| == |rows|
  {
    seq(|rows|, i requires 0 <= i < |rows| => if rows[i].id == id then UpdatedRow(rows[i], data) else rows[i])
  }

  /** An update writes exactly the modified props of the saved entry into its row, and
      touches no other row. */
  lemma UpdateWritesModifiedProps(rows: seq<EntryRow>, id: int, modified: seq<EntryProp>, entryType: Option<EntryType>,
                                  categoryId: Option<int>, startedAt: TimeVal, endedAt: TimeVal, i: int)
    requires 0 <= i < |rows|
    requires TypeProp in modified ==> entryType.Some?
    ensures var after := ApplyUpdate(rows, id, UpdateFor(modified, entryType, categoryId, startedAt, endedAt))[i];
            if rows[i].id != id then after == rows[i]
            else
              after.id == id &&
              after.entryType == (if TypeProp in modified then entryType.value else rows[i].entryType) &&
              after.categoryId == (if CategoryIdProp in modified && categoryId.Some? then categoryId.value else rows[i].categoryId) &&
              after.startedAt == (if StartedAtProp in modified then ToDb(startedAt) else rows[i].startedAt) &&
              after.endedAt == (if EndedAtProp in modified then ToDb(endedAt) else rows[i].endedAt)
  {
  }

  /** Ending the only open range of a category leaves it none. */
  lemma StopClosesTheOpenRange(rows: seq<EntryRow>, category: int, open: EntryRow, end: int)
    requires OpenRanges(rows, category) == [open]
    ensures OpenRanges(ApplyUpdate(rows, open.id, EntryUpdate(None, None, None, Some(Some(end)))), category) == []
  {
    var after := ApplyUpdate(rows, open.id, EntryUpdate(None, None, None, Some(Some(end))));
    forall i | 0 <= i < |after|
      ensures !IsOpenRange(after[i], category)
    {
      assert rows[i] in rows;
    }
  }

  /** Appending an open range to a category that had none makes it the only one. */
  lemma StartOpensOneRange(rows: seq<EntryRow>, category: int, row: EntryRow)
    requires OpenRanges(rows, category) == [] && IsOpenRange(row, category)
    ensures OpenRanges(rows + [row], category) == [row]
  {
    OpenRangesAppend(rows, [row], category);
    assert [row][1..] == [];
  }

  // ---------------------------------------------------------------------------
  // The table

  class EntryTable {
    var rows: seq<EntryRow>
    var nextId: int

    /** Ids ascend in table order and stay below the next id to hand out. */
    ghost predicate Valid()
      reads this
    {
      (forall i, j :: 0 <= i < j < |rows| ==> rows[i].id < rows[j].id) &&
      (forall i :: 0 <= i < |rows| ==> rows[i].id < nextId)
    }

    constructor ()
      ensures Valid() && rows == [] && nextId == 1
    {
      rows := [];
      nextId := 1;
    }

    /** `db('entry').insert(data)`: the new row's id. */
    method Insert(entryType: EntryType, categoryId: int, startedAt: Option<int>, endedAt: Option<int>) returns (id: int)
      requires Valid()
      modifies this
      ensures Valid()
      ensures id == old(nextId) && nextId == old(nextId) + 1
      ensures rows == old(rows) + [EntryRow(id, entryType, categoryId, startedAt, endedAt)]
    {
      id := nextId;
      rows := rows + [EntryRow(id, entryType, categoryId, startedAt, endedAt)];
      nextId := nextId + 1;
    }

    /** `db('entry').update(data).where('id', id)`. */
    method Update(id: int, data: EntryUpdate)
      requires Valid()
      modifies this
      ensures Valid()
      ensures rows == ApplyUpdate(old(rows), id, data) && nextId == old(nextId)
    {
      rows := ApplyUpdate(rows, id, data);
    }
  }

  // ---------------------------------------------------------------------------
  // The record

  class Entry {
    var id: Option<int>
    var entryType: Option<EntryType>
    var categoryId: Option<int>
    var startedAt: TimeVal
    var endedAt: TimeVal
    var modified: seq<EntryProp>

    /** A modified type holds a value, which the `type` setter guarantees. */
    predicate TypeSetWhenModified()
      reads this
    {
      TypeProp in modified ==> entryType.Some?
    }

    /** `new Entry(data)`. */
    constructor (data: EntryData)
      ensures id == data.id && entryType == data.entryType && categoryId == data.categoryId
      ensures startedAt == data.startedAt && endedAt == data.endedAt
      ensures modified == [] && TypeSetWhenModified()
    {
      id := data.id;
      entryType := data.entryType;
      categoryId := data.categoryId;
      startedAt := data.startedAt;
      endedAt := data.endedAt;
      modified := [];
    }

    /** The `startedAt` and `endedAt` getters. */
    function StartedAt(): (r: Option<int>)
      reads this
      ensures r.Some? <==> startedAt.At?
      ensures r.Some? ==> r.value == startedAt.ms
    {
      Instant(startedAt)
    }

    function EndedAt(): (r: Option<int>)
      reads this
      ensures r.Some? <==> endedAt.At?
      ensures r.Some? ==> r.value == endedAt.ms
    {
      Instant(endedAt)
    }

    /** `set category(newCategory)`. */
    method SetCategory(newCategory: CategoryArg)
      requires TypeSetWhenModified()
      modifies this
      ensures TypeSetWhenModified()
      ensures categoryId == (match newCategory
                             case CategoryNumber(n) => Some(n)
                             case CategoryObject(c) => c)
      ensures modified == old(modified) + [CategoryIdProp]
      ensures id == old(id) && entryType == old(entryType) && startedAt == old(startedAt) && endedAt == old(endedAt)
    {
      modified := modified + [CategoryIdProp];
      match newCategory
      case CategoryNumber(n) => categoryId := Some(n);
      case CategoryObject(c) => categoryId := c;
    }

    /** `set startedAt(newStart)`: refused while the type is undefined. */
    method SetStartedAt(newStart: TimeVal) returns (r: Outcome)
      requires TypeSetWhenModified()
      modifies this
      ensures TypeSetWhenModified()
      ensures r.Fail? <==> old(entryType).None?
      ensures r.Fail? ==> r.error == InvalidState && unchanged(this)
      ensures r.Pass? ==> startedAt == newStart && modified == old(modified) + [StartedAtProp]
      ensures id == old(id) && entryType == old(entryType) && categoryId == old(categoryId) && endedAt == old(endedAt)
    {
      if entryType.None? {
        return Fail(InvalidState);
      }
      startedAt := newStart;
      modified := modified + [StartedAtProp];
      r := Pass;
    }

    /** `set endedAt(newEnd)`: refused without a type, for an EVENT, and for a RANGE that has
        no start. */
    method SetEndedAt(newEnd: TimeVal) returns (r: Outcome)
      requires TypeSetWhenModified()
      modifies this
      ensures TypeSetWhenModified()
      ensures r.Pass? <==> old(entryType) == Some(Range) && !old(startedAt).Undefined?
      ensures r.Fail? ==> r.error == InvalidState && unchanged(this)
      ensures r.Pass? ==> endedAt == newEnd && modified == old(modified) + [EndedAtProp]
      ensures id == old(id) && entryType == old(entryType) && categoryId == old(categoryId) && startedAt == old(startedAt)
    {
      if entryType.None? || entryType == Some(Event) || (entryType == Some(Range) && startedAt.Undefined?) {
        return Fail(InvalidState);
      }
      assert entryType.value.Range?;
      endedAt := newEnd;
      modified := modified + [EndedAtProp];
      r := Pass;
    }

    /** `set type(newType)`: leaving RANGE first clears the end through the `endedAt` setter,
        which refuses a range that never started. */
    method SetType(newType: EntryType) returns (r: Outcome)
      requires TypeSetWhenModified()
      modifies this
      ensures TypeSetWhenModified()
      ensures r.Fail? <==> old(entryType) == Some(Range) && newType != Range && old(startedAt).Undefined?
      ensures r.Fail? ==> r.error == InvalidState && unchanged(this)
      ensures r.Pass? && old(entryType) == Some(Range) && newType != Range ==>
                endedAt == Null && modified == old(modified) + [EndedAtProp, TypeProp]
      ensures r.Pass? && !(old(entryType) == Some(Range) && newType != Range) ==>
                endedAt == old(endedAt) && modified == old(modified) + [TypeProp]
      ensures r.Pass? ==> entryType == Some(newType)
      ensures id == old(id) && categoryId == old(categoryId) && startedAt == old(startedAt)
    {
      if entryType == Some(Range) && newType != Range {
        r := SetEndedAt(Null);
        if r.Fail? {
          return;
        }
      }
      modified := modified + [TypeProp];
      entryType := Some(newType);
      r := Pass;
    }

    /** `start()`: the start is now. */
    method Start(now: int) returns (r: Outcome)
      requires TypeSetWhenModified()
      modifies this
      ensures TypeSetWhenModified()
      ensures r.Fail? <==> old(entryType).None?
      ensures r.Fail? ==> r.error == InvalidState && unchanged(this)
      ensures r.Pass? ==> startedAt == At(now) && modified == old(modified) + [StartedAtProp]
      ensures id == old(id) && entryType == old(entryType) && categoryId == old(categoryId) && endedAt == old(endedAt)
    {
      r := SetStartedAt(At(now));
    }

    /** `stop()`: the end is now. */
    method Stop(now: int) returns (r: Outcome)
      requires TypeSetWhenModified()
      modifies this
      ensures TypeSetWhenModified()
      ensures r.Pass? <==> old(entryType) == Some(Range) && !old(startedAt).Undefined?
      ensures r.Fail? ==> r.error == InvalidState && unchanged(this)
      ensures r.Pass? ==> endedAt == At(now) && modified == old(modified) + [EndedAtProp]
      ensures id == old(id) && entryType == old(entryType) && categoryId == old(categoryId) && startedAt == old(startedAt)
    {
      r := SetEndedAt(At(now));
    }

    /** `insertRecord()`: refused without a category or a type; an entry without a start is
        started now. */
    method InsertRecord(table: EntryTable, now: int) returns (r: Outcome)
      requires TypeSetWhenModified() && table.Valid()
      modifies this, table
      ensures TypeSetWhenModified() && table.Valid()
      ensures r.Fail? <==> old(categoryId).None? || old(entryType).None?
      ensures r.Fail? ==> r.error == InvalidState && unchanged(this) && unchanged(table)
      ensures r.Pass? ==>
                id == Some(old(table.nextId)) && modified == [] &&
                entryType == old(entryType) && categoryId == old(categoryId) && endedAt == old(endedAt) &&
                startedAt == (if old(startedAt).Undefined? then At(now) else old(startedAt)) &&
                table.rows == old(table.rows) +
                  [EntryRow(id.value, entryType.value, categoryId.value, ToDb(startedAt), ToDb(endedAt))]
    {
      if categoryId.None? || entryType.None? {
        return Fail(InvalidState);
      }
      if startedAt.Undefined? {
        r := Start(now);
      }
      var newId := table.Insert(entryType.value, categoryId.value, ToDb(startedAt), ToDb(endedAt));
      id := Some(newId);
      modified := [];
      r := Pass;
    }

    /** `updateRecord()`: an update left without a defined value is rejected by the query
        builder, and the props stay modified. */
    method UpdateRecord(table: EntryTable) returns (r: Outcome)
      requires TypeSetWhenModified() && table.Valid() && id.Some?
      modifies this, table
      ensures TypeSetWhenModified() && table.Valid()
      ensures r.Fail? <==> WritesNothing(UpdateFor(old(modified), old(entryType), old(categoryId), old(startedAt), old(endedAt)))
      ensures r.Fail? ==> r.error == DatabaseError && unchanged(this) && unchanged(table)
      ensures id == old(id) && entryType == old(entryType) && categoryId == old(categoryId)
      ensures startedAt == old(startedAt) && endedAt == old(endedAt)
      ensures r.Pass? ==>
                modified == [] && table.nextId == old(table.nextId) &&
                table.rows == ApplyUpdate(old(table.rows), id.value, UpdateFor(old(modified), entryType, categoryId, startedAt, endedAt))
    {
      var data, remaining := BuildEntryUpdate(modified, entryType, categoryId, startedAt, endedAt);
      modified := remaining;
      if WritesNothing(data) {
        return Fail(DatabaseError);
      }
      table.Update(id.value, data);
      modified := [];
      r := Pass;
    }

    /** `save()`: nothing to do for a saved, unmodified entry; insert when never saved;
        otherwise update. */
    method Save(table: EntryTable, now: int) returns (r: Outcome)
      requires TypeSetWhenModified() && table.Valid()
      modifies this, table
      ensures TypeSetWhenModified() && table.Valid()
      ensures old(id).Some? && old(modified) == [] ==> r == Pass && unchanged(this) && unchanged(table)
      ensures old(id).None? ==> (r.Fail? <==> old(categoryId).None? || old(entryType).None?)
      ensures old(id).None? && r.Fail? ==> r.error == InvalidState && unchanged(this) && unchanged(table)
      ensures old(id).None? && r.Pass? ==>
                id == Some(old(table.nextId)) && modified == [] &&
                entryType == old(entryType) && categoryId == old(categoryId) && endedAt == old(endedAt) &&
                startedAt == (if old(startedAt).Undefined? then At(now) else old(startedAt)) &&
                table.rows == old(table.rows) +
                  [EntryRow(id.value, entryType.value, categoryId.value, ToDb(startedAt), ToDb(endedAt))]
      ensures old(id).Some? && old(modified) != [] ==>
                (r.Fail? <==> WritesNothing(UpdateFor(old(modified), old(entryType), old(categoryId), old(startedAt), old(endedAt))))
      ensures old(id).Some? && old(modified) != [] && r.Fail? ==>
                r.error == DatabaseError && unchanged(this) && unchanged(table)
      ensures old(id).Some? && old(modified) != [] && r.Pass? ==>
                modified == [] && id == old(id) && entryType == old(entryType) &&
                categoryId == old(categoryId) && startedAt == old(startedAt) && endedAt == old(endedAt) &&
                table.nextId == old(table.nextId) &&
                table.rows == ApplyUpdate(old(table.rows), id.value,
                                          UpdateFor(old(modified), entryType, categoryId, startedAt, endedAt))
    {
      var neverSaved := id.None?;
      var updatedFields := |modified| > 0;
      if !(neverSaved || updatedFields) {
        return Pass;
      }
      if neverSaved {
        r := InsertRecord(table, now);
      } else {
        r := UpdateRecord(table);
      }
    }

    /** `Entry.fetch(id)`. */
    static method FetchEntry(table: EntryTable, id: int) returns (r: Result<Entry>)
      ensures r.Err? <==> Fetch(table.rows, id).Err?
      ensures r.Err? ==> r.error == NotFound
      ensures r.Ok? ==> fresh(r.value) && r.value.modified == [] &&
                        RowData(Fetch(table.rows, id).value) ==
                          EntryData(r.value.id, r.value.entryType, r.value.categoryId, r.value.startedAt, r.value.endedAt)
    {
      var row := Fetch(table.rows, id);
      if row.Err? {
        return Err(row.error);
      }
      var e := new Entry(RowData(row.value));
      r := Ok(e);
    }

    /** `Entry.startFor(category)`: refused while the category has an open range; otherwise a
        RANGE started now. An unsaved category has no id to search by. */
    static method StartFor(table: EntryTable, category: Option<int>, now: int) returns (r: Result<Entry>)
      requires table.Valid()
      modifies table
      ensures table.Valid()
      ensures r.Ok? <==> category.Some? && OpenRanges(old(table.rows), category.value) == []
      ensures category.None? ==> r == Err(BadConnection)
      ensures r.Err? ==> unchanged(table)
      ensures category.Some? && OpenRanges(old(table.rows), category.value) != [] ==> r == Err(InvalidAction)
      ensures r.Ok? ==>
                fresh(r.value) && r.value.id == Some(old(table.nextId)) && r.value.modified == [] &&
                r.value.entryType == Some(Range) && r.value.categoryId == category &&
                r.value.startedAt == At(now) && r.value.EndedAt().None? &&
                table.rows == old(table.rows) + [EntryRow(old(table.nextId), Range, category.value, ToDb(At(now)), None)] &&
                OpenRanges(table.rows, category.value) == [table.rows[|old(table.rows)|]]
    {
      if category.None? {
        return Err(BadConnection);
      }
      var matches := OpenRanges(table.rows, category.value);
      if |matches| != 0 {
        return Err(InvalidAction);
      }
      var entry := new Entry(NoEntryData);
      var typed := entry.SetType(Range);
      entry.SetCategory(CategoryObject(category));
      var started := entry.Start(now);
      var saved := entry.Save(table, now);
      StartOpensOneRange(old(table.rows), category.value, table.rows[|old(table.rows)|]);
      r := Ok(entry);
    }

    /** `Entry.stopFor(category)`: refused unless the category has exactly one open range,
        which is then ended now. */
    static method StopFor(table: EntryTable, category: Option<int>, now: int) returns (r: Result<Entry>)
      requires table.Valid()
      modifies table
      ensures table.Valid()
      ensures r.Ok? <==> category.Some? && |OpenRanges(old(table.rows), category.value)| == 1
      ensures category.None? ==> r == Err(BadConnection)
      ensures r.Err? ==> unchanged(table)
      ensures category.Some? && |OpenRanges(old(table.rows), category.value)| != 1 ==> r == Err(InvalidAction)
      ensures r.Ok? ==>
                var open := OpenRanges(old(table.rows), category.value)[0];
                fresh(r.value) && r.value.id == Some(open.id) && r.value.modified == [] &&
                r.value.entryType == Some(Range) && r.value.endedAt == At(now) &&
                table.nextId == old(table.nextId) &&
                table.rows == ApplyUpdate(old(table.rows), open.id, EntryUpdate(None, None, None, Some(ToDb(At(now))))) &&
                OpenRanges(table.rows, category.value) == []
    {
      if category.None? {
        return Err(BadConnection);
      }
      var matches := OpenRanges(table.rows, category.value);
      if |matches| != 1 {
        return Err(InvalidAction);
      }
      var open := matches[0];
      assert open in matches;
      var entry := new Entry(RowData(open));
      var stopped := entry.Stop(now);
      var saved := entry.Save(table, now);
      StopClosesTheOpenRange(old(table.rows), category.value, open, now / 1000);
      r := Ok(entry);
    }

    /** `Entry.logFor(category)`: an EVENT started now. */
    static method LogFor(table: EntryTable, category: Option<int>, now: int) returns (r: Result<Entry>)
      requires table.Valid()
      modifies table
      ensures table.Valid()
      ensures r.Ok? <==> category.Some?
      ensures r.Err? ==> r.error == InvalidState && unchanged(table)
      ensures r.Ok? ==>
                fresh(r.value) && r.value.id == Some(old(table.nextId)) && r.value.modified == [] &&
                r.value.entryType == Some(Event) && r.value.StartedAt() == Some(now) && r.value.EndedAt().None? &&
                table.rows == old(table.rows) + [EntryRow(old(table.nextId), Event, category.value, ToDb(At(now)), None)]
    {
      var entry := new Entry(NoEntryData);
      var typed := entry.SetType(Event);
      entry.SetCategory(CategoryObject(category));
      var saved := entry.Save(table, now);
      if saved.Fail? {
        return Err(saved.error);
      }
      r := Ok(entry);
    }
  }
}
