/** modules/Category.js: categories form one tree per account. A category record tracks
    which of its props were assigned since it was loaded, inserts itself through the
    `category_add` procedure after resolving its parent and account, and otherwise
    updates exactly the assigned columns.

    The `category` table is a class holding its rows in id order, so the first row a query
    matches is the first in the sequence. The two stored procedures are modelled by the
    behaviour their callers and tests rely on: `category_setup` gives an account one root
    and is idempotent, and `category_add` refuses a parent that is not in the given
    account. */
module Categories {
  import opened Wrappers
  import opened TimeError

  /** A prop's JavaScript value: `undefined` before it is ever set, `null`, or an id. */
  datatype Ref = Undefined | Null | Id(id: int)

  /** A row of the `category` table. */
  datatype CategoryRow = CategoryRow(id: int, parentId: Option<int>, accountId: Option<int>, name: Option<string>)

  /** The names `_modifiedProps` records. */
  datatype Prop = NameProp | AccountIdProp | ParentIdProp

  /** What the `account` setter accepts: an id, or an Account object (whose id is null until it is saved). */
  datatype AccountArg = AccountNumber(n: int) | AccountObject(accountId: Option<int>)

  /** What the `parent` setter may be given: null, a Category object (with its id, undefined
      until saved), or any other value. */
  datatype ParentArg = NullParent | CategoryParent(parentId: Option<int>) | OtherValue

  /** The `data` object the constructor copies its fields from. */
  datatype CategoryData = CategoryData(id: Option<int>, parentId: Ref, name: Option<string>, accountId: Ref)

  const NoData := CategoryData(None, Undefined, None, Undefined)

  /** A resolved `(parent_id, account_id)` pair for `category_add`. */
  datatype Placement = Placement(parent: Ref, account: Ref)

  /** The columns `updateRecord` writes: a field is present when its prop was modified; an
      `undefined` value is left out of the SQL by the query builder. */
  datatype CategoryUpdate = CategoryUpdate(name: Option<Option<string>>, parentId: Option<Ref>, accountId: Option<Ref>)

  function RefOf(column: Option<int>): (r: Ref)
    ensures !r.Undefined?
  {
    match column
    case None => Null
    case Some(v) => Id(v)
  }

  function ColumnOf(value: Ref): Option<int>
  {
    if value.Id? then Some(value.id) else None
  }

  /** The object `new Category(row)` builds from a fetched row. */
  function RowData(row: CategoryRow): CategoryData
  {
    CategoryData(Some(row.id), RefOf(row.parentId), row.name, RefOf(row.accountId))
  }

  // ---------------------------------------------------------------------------
  // Queries

  /** `whereNull('parent_id').andWhere('account_id', account)`; a null account matches NULL. */
  predicate IsRootOf(row: CategoryRow, account: Option<int>)
  {
    row.parentId.None? && row.accountId == account
  }

  /** `getRootID(accountID)`: the id of the first root of the account, `undefined` if none. */
  function RootId(rows: seq<CategoryRow>, account: Option<int>): (r: Ref)
    ensures !r.Null?
    ensures r.Id? ==> exists i :: 0 <= i < |rows| && rows[i].id == r.id && IsRootOf(rows[i], account) &&
                                  forall j :: 0 <= j < i ==> !IsRootOf(rows[j], account)
    ensures r.Undefined? <==> forall i :: 0 <= i < |rows| ==> !IsRootOf(rows[i], account)
    decreases |rows|
  {
    if |rows| == 0 then Undefined
    else if IsRootOf(rows[0], account) then Id(rows[0].id)
    else
      var r := RootId(rows[1..], account);
      assert forall i :: 1 <= i < |rows| ==> rows[i] == rows[1..][i - 1];
      if r.Id? then
        var k :| 0 <= k < |rows[1..]| && rows[1..][k].id == r.id && IsRootOf(rows[1..][k], account) &&
                 forall j :: 0 <= j < k ==> !IsRootOf(rows[1..][j], account);
        assert rows[k + 1] == rows[1..][k];
        r
      else r
  }

  /** `getAccountID(parentID)`: the account of the first row with that id, `undefined` if
      none; `where('id', null)` matches nothing. */
  function AccountOf(rows: seq<CategoryRow>, parent: Option<int>): (r: Ref)
    ensures r.Undefined? <==> forall i :: 0 <= i < |rows| ==> parent != Some(rows[i].id)
    ensures !r.Undefined? ==> exists i :: 0 <= i < |rows| && parent == Some(rows[i].id) &&
                                          r == RefOf(rows[i].accountId) &&
                                          forall j :: 0 <= j < i ==> parent != Some(rows[j].id)
    decreases |rows|
  {
    if |rows| == 0 then Undefined
    else if parent == Some(rows[0].id) then RefOf(rows[0].accountId)
    else
      var r := AccountOf(rows[1..], parent);
      assert forall i :: 1 <= i < |rows| ==> rows[i] == rows[1..][i - 1];
      if !r.Undefined? then
        var k :| 0 <= k < |rows[1..]| && parent == Some(rows[1..][k].id) && r == RefOf(rows[1..][k].accountId) &&
                 forall j :: 0 <= j < k ==> parent != Some(rows[1..][j].id);
        assert rows[k + 1] == rows[1..][k];
        r
      else r
  }

  /** `fetchRecords({ id }, 1)` followed by `fetch`'s empty check: an undefined id breaks
      the query (BAD_CONNECTION), a null one matches nothing. */
  function Fetch(rows: seq<CategoryRow>, id: Ref): (r: Result<CategoryRow>)
    ensures id.Undefined? ==> r == Err(BadConnection)
    ensures !id.Undefined? ==> (r.Ok? <==> exists i :: 0 <= i < |rows| && id == Id(rows[i].id))
    ensures r.Ok? ==> r.value in rows && id == Id(r.value.id)
    ensures r.Err? && !id.Undefined? ==> r.error == NotFound
    decreases |rows|
  {
    if id.Undefined? then Err(BadConnection)
    else if |rows| == 0 then Err(NotFound)
    else if id == Id(rows[0].id) then Ok(rows[0])
    else
      var r := Fetch(rows[1..], id);
      assert forall i :: 1 <= i < |rows| ==> rows[i] == rows[1..][i - 1];
      r
  }

  /** `fetchRecords({ parent_id })`: the rows under `parent`, in table order. */
  function RowsUnder(rows: seq<CategoryRow>, parent: int): (r: seq<CategoryRow>)
    ensures |r| <= |rows|
    ensures forall c :: c in r <==> c in rows && c.parentId == Some(parent)
    decreases |rows|
  {
    if |rows| == 0 then []
    else (if rows[0].parentId == Some(parent) then [rows[0]] else []) + RowsUnder(rows[1..], parent)
  }

  // ---------------------------------------------------------------------------
  // insertRecord's resolution and category_add's check

  /** `insertRecord` lines 25-39: a defined prop is kept; a missing account is the
      parent's, a missing parent is the account's root; with neither the insert is refused. */
  function ResolvePlacement(rows: seq<CategoryRow>, parent: Ref, account: Ref): (r: Result<Placement>)
    ensures r.Err? <==> parent.Undefined? && account.Undefined?
    ensures r.Err? ==> r.error == InsufficientParentOrAccount
    ensures r.Ok? && !parent.Undefined? ==> r.value.parent == parent
    ensures r.Ok? && !account.Undefined? ==> r.value.account == account
    ensures r.Ok? && account.Undefined? ==> r.value.account == AccountOf(rows, ColumnOf(parent))
    ensures r.Ok? && parent.Undefined? ==> r.value.parent == RootId(rows, ColumnOf(account))
  {
    if !parent.Undefined? && !account.Undefined? then Ok(Placement(parent, account))
    else if !parent.Undefined? then Ok(Placement(parent, AccountOf(rows, ColumnOf(parent))))
    else if !account.Undefined? then Ok(Placement(RootId(rows, ColumnOf(account)), account))
    else Err(InsufficientParentOrAccount)
  }

  /** `parent` is a row of account `account`: the check `category_add` makes. */
  predicate InAccount(rows: seq<CategoryRow>, parent: int, account: int)
  {
    exists i :: 0 <= i < |rows| && rows[i].id == parent && rows[i].accountId == Some(account)
  }

  /** What `CALL category_add(account, parent, name)` answers: an undefined binding is refused
      by the driver; otherwise the parent must be a category of the account. */
  function AddVerdict(rows: seq<CategoryRow>, account: Ref, parent: Ref, name: Option<string>): (r: Outcome)
    ensures r.Pass? <==> account.Id? && parent.Id? && name.Some? && InAccount(rows, parent.id, account.id)
    ensures r.Fail? && !account.Undefined? && !parent.Undefined? && name.Some? ==>
              r.error == InconsistentParentAndAccount
  {
    if account.Undefined? || parent.Undefined? || name.None? then Fail(DatabaseError)
    else if account.Id? && parent.Id? && InAccount(rows, parent.id, account.id) then Pass
    else Fail(InconsistentParentAndAccount)
  }

  // ---------------------------------------------------------------------------
  // updateRecord's data

  /** The `data` object `updateRecord` builds: each modified prop's current value. */
  function UpdateFor(modified: seq<Prop>, name: Option<string>, parentId: Ref, accountId: Ref): CategoryUpdate
  {
    CategoryUpdate(
      if NameProp in modified then Some(name) else None,
      if ParentIdProp in modified then Some(parentId) else None,
      if AccountIdProp in modified then Some(accountId) else None)
  }

  /** `updateRecord` lines 67-70: `data[prop] = this.props[prop]` for each modified prop, in order. */
  method BuildCategoryUpdate(modified: seq<Prop>, name: Option<string>, parentId: Ref, accountId: Ref)
    returns (data: CategoryUpdate)
    ensures data == UpdateFor(modified, name, parentId, accountId)
  {
    data := CategoryUpdate(None, None, None);
    for k := 0 to |modified|
      invariant data == UpdateFor(modified[..k], name, parentId, accountId)
    {
      assert modified[..k + 1] == modified[..k] + [modified[k]];
      match modified[k]
      case NameProp => data := data.(name := Some(name));
      case ParentIdProp => data := data.(parentId := Some(parentId));
      case AccountIdProp => data := data.(accountId := Some(accountId));
    }
    assert modified[..|modified|] == modified;
  }

  /** One row with the update's defined columns written over it. */
  function UpdatedRow(row: CategoryRow, data: CategoryUpdate): CategoryRow
  {
    CategoryRow(
      row.id,
      if data.parentId.Some? && !data.parentId.value.Undefined? then ColumnOf(data.parentId.value) else row.parentId,
      if data.accountId.Some? && !data.accountId.value.Undefined? then ColumnOf(data.accountId.value) else row.accountId,
      if data.name.Some? && data.name.value.Some? then data.name.value else row.name)
  }

  /** `db('category').update(data).where('id', id)`: the same query as Entries.ApplyUpdate,
      over the rows of the `category` table. */
  function ApplyUpdate(rows: seq<CategoryRow>, id: int, data: CategoryUpdate): (r: seq<CategoryRow>)
    ensures |r| == |rows|
  {
    seq(|rows|, i requires 0 <= i < |rows| => if rows[i].id == id then UpdatedRow(rows[i], data) else rows[i])
  }

  /** An update writes exactly the modified props of the saved record into its row, and
      touches no other row. */
  lemma UpdateWritesModifiedProps(rows: seq<CategoryRow>, id: int, modified: seq<Prop>,
                                  name: Option<string>, parentId: Ref, accountId: Ref, i: int)
    requires 0 <= i < |rows|
    requires NameProp in modified ==> name.Some?
    requires ParentIdProp in modified ==> !parentId.Undefined?
    requires AccountIdProp in modified ==> !accountId.Undefined?
    ensures var after := ApplyUpdate(rows, id, UpdateFor(modified, name, parentId, accountId))[i];
            if rows[i].id != id then after == rows[i]
            else
              after.id == id &&
              after.name == (if NameProp in modified then name else rows[i].name) &&
              after.parentId == (if ParentIdProp in modified then ColumnOf(parentId) else rows[i].parentId) &&
              after.accountId == (if AccountIdProp in modified then ColumnOf(accountId) else rows[i].accountId)
  {
  }

  // ---------------------------------------------------------------------------
  // The table

  /** Every account has at most one root. */
  ghost predicate OneRootPerAccount(rows: seq<CategoryRow>)
  {
    forall i, j ::
      (0 <= i < |rows| && 0 <= j < |rows| && rows[i].parentId.None? && rows[j].parentId.None? &&
       rows[i].accountId == rows[j].accountId) ==> i == j
  }

  /** Distinct accounts never share a root. */
  lemma RootsOfDistinctAccountsDiffer(rows: seq<CategoryRow>, a: int, b: int)
    requires forall i, j :: 0 <= i < j < |rows| ==> rows[i].id < rows[j].id
    requires a != b && RootId(rows, Some(a)).Id? && RootId(rows, Some(b)).Id?
    ensures RootId(rows, Some(a)).id != RootId(rows, Some(b)).id
  {
    var ra, rb := RootId(rows, Some(a)), RootId(rows, Some(b));
    var i :| 0 <= i < |rows| && rows[i].id == ra.id && IsRootOf(rows[i], Some(a)) &&
             forall j :: 0 <= j < i ==> !IsRootOf(rows[j], Some(a));
    var k :| 0 <= k < |rows| && rows[k].id == rb.id && IsRootOf(rows[k], Some(b)) &&
             forall j :: 0 <= j < k ==> !IsRootOf(rows[j], Some(b));
    assert i != k;
    if i < k { assert rows[i].id < rows[k].id; } else { assert rows[k].id < rows[i].id; }
  }

  class CategoryTable {
    var rows: seq<CategoryRow>
    var nextId: int

    /** Ids ascend in table order and stay below the next id to hand out. */
    ghost predicate Valid()
      reads this
    {
      (forall i, j :: 0 <= i < j < |rows| ==> rows[i].id < rows[j].id) &&
      (forall i :: 0 <= i < |rows| ==> rows[i].id < nextId)
    }

    constructor ()
      ensures Valid() && rows == [] && nextId == 1
    {
      rows := [];
      nextId := 1;
    }

    /** `CALL category_setup(account)`: the account's root, created if it has none. */
    method Setup(account: int) returns (root: int)
      requires Valid()
      modifies this
      ensures Valid()
      ensures RootId(rows, Some(account)) == Id(root)
      ensures old(RootId(rows, Some(account))).Id? ==>
                root == old(RootId(rows, Some(account))).id && rows == old(rows) && nextId == old(nextId)
      ensures old(RootId(rows, Some(account))).Undefined? ==>
                root == old(nextId) && nextId == old(nextId) + 1 &&
                rows == old(rows) + [CategoryRow(root, None, Some(account), None)]
      ensures OneRootPerAccount(old(rows)) ==> OneRootPerAccount(rows)
    {
      var existing := RootId(rows, Some(account));
      if existing.Id? {
        root := existing.id;
      } else {
        root := nextId;
        var row := CategoryRow(root, None, Some(account), None);
        RootIdOfAppended(rows, account, row);
        rows := rows + [row];
        nextId := nextId + 1;
      }
    }

    /** `CALL category_add(account, parent, name)`: a new category under `parent`. */
    method Add(account: Ref, parent: Ref, name: Option<string>) returns (r: Result<int>)
      requires Valid()
      modifies this
      ensures Valid()
      ensures r.Ok? <==> AddVerdict(old(rows), account, parent, name).Pass?
      ensures r.Err? ==> r.error == AddVerdict(old(rows), account, parent, name).error &&
                         rows == old(rows) && nextId == old(nextId)
      ensures r.Ok? ==> r.value == old(nextId) && nextId == old(nextId) + 1 &&
                        rows == old(rows) + [CategoryRow(r.value, ColumnOf(parent), ColumnOf(account), name)]
      ensures OneRootPerAccount(old(rows)) ==> OneRootPerAccount(rows)
    {
      var verdict := AddVerdict(rows, account, parent, name);
      if verdict.Fail? {
        r := Err(verdict.error);
      } else {
        r := Ok(nextId);
        rows := rows + [CategoryRow(nextId, ColumnOf(parent), ColumnOf(account), name)];
        nextId := nextId + 1;
      }
    }

    /** `db('category').update(data).where('id', id)`. */
    method Update(id: int, data: CategoryUpdate)
      requires Valid()
      modifies this
      ensures Valid()
      ensures rows == ApplyUpdate(old(rows), id, data) && nextId == old(nextId)
    {
      rows := ApplyUpdate(rows, id, data);
    }
  }

  /** Appending a root to an account without one makes it the account's root. */
  lemma RootIdOfAppended(rows: seq<CategoryRow>, account: int, row: CategoryRow)
    requires RootId(rows, Some(account)).Undefined?
    requires IsRootOf(row, Some(account))
    ensures RootId(rows + [row], Some(account)) == Id(row.id)
    ensures OneRootPerAccount(rows) ==> OneRootPerAccount(rows + [row])
  {
    var after := rows + [row];
    assert after[|rows|] == row;
    assert forall i :: 0 <= i < |rows| ==> after[i] == rows[i];
    var r := RootId(after, Some(account));
    assert !r.Undefined?;
    var i :| 0 <= i < |after| && after[i].id == r.id && IsRootOf(after[i], Some(account)) &&
             forall j :: 0 <= j < i ==> !IsRootOf(after[j], Some(account));
    assert i == |rows|;
  }

  // ---------------------------------------------------------------------------
  // The record

  class Category {
    var id: Option<int>
    var parentId: Ref
    var accountId: Ref
    var name: Option<string>
    var modified: seq<Prop>

    /** Every modified prop holds a defined value, which the setters guarantee. */
    predicate ModifiedAreSet()
      reads this
    {
      (NameProp in modified ==> name.Some?) &&
      (ParentIdProp in modified ==> !parentId.Undefined?) &&
      (AccountIdProp in modified ==> !accountId.Undefined?)
    }

    /** `new Category(data)`. */
    constructor (data: CategoryData)
      ensures id == data.id && parentId == data.parentId && name == data.name && accountId == data.accountId
      ensures modified == [] && ModifiedAreSet()
    {
      id := data.id;
      parentId := data.parentId;
      name := data.name;
      accountId := data.accountId;
      modified := [];
    }

    /** `set name(newName)`. */
    method SetName(newName: string)
      requires ModifiedAreSet()
      modifies this
      ensures ModifiedAreSet()
      ensures name == Some(newName) && modified == old(modified) + [NameProp]
      ensures id == old(id) && parentId == old(parentId) && accountId == old(accountId)
    {
      modified := modified + [NameProp];
      name := Some(newName);
    }

    /** `set account(newAccount)`: a number is the id, an object gives its `id`. */
    method SetAccount(newAccount: AccountArg)
      requires ModifiedAreSet()
      modifies this
      ensures ModifiedAreSet()
      ensures accountId == (match newAccount
                            case AccountNumber(n) => Id(n)
                            case AccountObject(a) => RefOf(a))
      ensures modified == old(modified) + [AccountIdProp]
      ensures id == old(id) && parentId == old(parentId) && name == old(name)
    {
      modified := modified + [AccountIdProp];
      match newAccount
      case AccountNumber(n) => accountId := Id(n);
      case AccountObject(a) => accountId := RefOf(a);
    }

    /** `set parent(newParent)`: only null or a saved Category is accepted; anything else
        throws INVALID_TYPE before any prop changes. */
    method SetParent(newParent: ParentArg) returns (r: Outcome)
      requires ModifiedAreSet()
      modifies this
      ensures ModifiedAreSet()
      ensures r.Pass? <==> newParent.NullParent? || (newParent.CategoryParent? && newParent.parentId.Some?)
      ensures r.Fail? ==> r.error == InvalidType && unchanged(this)
      ensures r.Pass? ==> parentId == (if newParent.NullParent? then Null else Id(newParent.parentId.value)) &&
                          modified == old(modified) + [ParentIdProp]
      ensures id == old(id) && accountId == old(accountId) && name == old(name)
    {
      var isCategory := newParent.CategoryParent? && newParent.parentId.Some?;
      var isNull := newParent.NullParent?;
      if !(isCategory || isNull) {
        return Fail(InvalidType);
      }
      parentId := if isNull then Null else Id(newParent.parentId.value);
      modified := modified + [ParentIdProp];
      r := Pass;
    }

    /** `getParent()`: null without a parent, otherwise the fetched parent. */
    function GetParent(table: CategoryTable): (r: Result<Option<CategoryRow>>)
      reads this, table
      ensures parentId.Null? ==> r == Ok(None)
      ensures parentId.Undefined? ==> r == Err(BadConnection)
      ensures parentId.Id? ==> (r.Ok? <==> exists i :: 0 <= i < |table.rows| && table.rows[i].id == parentId.id)
      ensures r.Ok? && r.value.Some? ==> r.value.value in table.rows && Id(r.value.value.id) == parentId
    {
      if parentId.Null? then Ok(None)
      else match Fetch(table.rows, parentId)
        case Ok(row) => Ok(Some(row))
        case Err(e) => Err(e)
    }

    /** `getChildren()`: the rows whose parent is this category. */
    function GetChildren(table: CategoryTable): (r: Result<seq<CategoryRow>>)
      reads this, table
      ensures r.Err? <==> id.None?
      ensures r.Err? ==> r.error == BadConnection
      ensures r.Ok? ==> forall c :: c in r.value <==> c in table.rows && c.parentId == id
    {
      if id.None? then Err(BadConnection) else Ok(RowsUnder(table.rows, id.value))
    }

    /** `insertRecord()`. */
    method InsertRecord(table: CategoryTable) returns (r: Outcome)
      requires ModifiedAreSet() && table.Valid()
      modifies this, table
      ensures ModifiedAreSet() && table.Valid()
      ensures var placed := ResolvePlacement(old(table.rows), old(parentId), old(accountId));
              if placed.Err? then
                r == Fail(placed.error) && unchanged(this) && unchanged(table)
              else
                var verdict := AddVerdict(old(table.rows), placed.value.account, placed.value.parent, old(name));
                if verdict.Fail? then
                  r == verdict && unchanged(this) && table.rows == old(table.rows) && table.nextId == old(table.nextId)
                else
                  r == Pass && id == Some(old(table.nextId)) &&
                  parentId == placed.value.parent && accountId == placed.value.account &&
                  name == old(name) && modified == [] &&
                  table.rows == old(table.rows) + [CategoryRow(id.value, ColumnOf(parentId), ColumnOf(accountId), name)] &&
                  table.nextId == old(table.nextId) + 1
      ensures OneRootPerAccount(old(table.rows)) ==> OneRootPerAccount(table.rows)
    {
      var placed := ResolvePlacement(table.rows, parentId, accountId);
      if placed.Err? {
        return Fail(placed.error);
      }
      var added := table.Add(placed.value.account, placed.value.parent, name);
      if added.Err? {
        return Fail(added.error);
      }
      id := Some(added.value);
      accountId := placed.value.account;
      parentId := placed.value.parent;
      modified := [];
      r := Pass;
    }

    /** `updateRecord()`. */
    method UpdateRecord(table: CategoryTable)
      requires ModifiedAreSet() && table.Valid() && id.Some?
      modifies this, table
      ensures ModifiedAreSet() && table.Valid()
      ensures modified == [] && id == old(id) && name == old(name) && parentId == old(parentId) && accountId == old(accountId)
      ensures table.rows == ApplyUpdate(old(table.rows), id.value, UpdateFor(old(modified), name, parentId, accountId))
      ensures table.nextId == old(table.nextId)
    {
      var data := BuildCategoryUpdate(modified, name, parentId, accountId);
      table.Update(id.value, data);
      modified := [];
    }

    /** `save()`: nothing to do for a saved, unmodified record; insert when never saved;
        otherwise update. */
    method Save(table: CategoryTable) returns (r: Outcome)
      requires ModifiedAreSet() && table.Valid()
      modifies this, table
      ensures ModifiedAreSet() && table.Valid()
      ensures old(id).Some? && old(modified) == [] ==> r == Pass && unchanged(this) && unchanged(table)
      ensures old(id).None? ==>
                var placed := ResolvePlacement(old(table.rows), old(parentId), old(accountId));
                if placed.Err? then
                  r == Fail(placed.error) && unchanged(this) && unchanged(table)
                else
                  var verdict := AddVerdict(old(table.rows), placed.value.account, placed.value.parent, old(name));
                  if verdict.Fail? then
                    r == verdict && unchanged(this) && table.rows == old(table.rows) && table.nextId == old(table.nextId)
                  else
                    r == Pass && id == Some(old(table.nextId)) &&
                    parentId == placed.value.parent && accountId == placed.value.account &&
                    name == old(name) && modified == [] &&
                    table.rows == old(table.rows) + [CategoryRow(id.value, ColumnOf(parentId), ColumnOf(accountId), name)] &&
                    table.nextId == old(table.nextId) + 1
      ensures old(id).Some? && old(modified) != [] ==>
                r == Pass && modified == [] && id == old(id) && name == old(name) &&
                parentId == old(parentId) && accountId == old(accountId) && table.nextId == old(table.nextId) &&
                table.rows == ApplyUpdate(old(table.rows), id.value, UpdateFor(old(modified), name, parentId, accountId))
      ensures OneRootPerAccount(old(table.rows)) && !(old(id).Some? && old(modified) != []) ==> OneRootPerAccount(table.rows)
    {
      var neverSaved := id.None?;
      var updatedFields := |modified| > 0;
      if !(neverSaved || updatedFields) {
        return Pass;
      }
      if neverSaved {
        r := InsertRecord(table);
      } else {
        UpdateRecord(table);
        r := Pass;
      }
    }

    /** `Category.fetch(id)`: a new record built from the row. */
    static method FetchCategory(table: CategoryTable, id: Ref) returns (r: Result<Category>)
      ensures Fetch(table.rows, id).Err? <==> r.Err?
      ensures r.Err? ==> r.error == Fetch(table.rows, id).error
      ensures r.Ok? ==> fresh(r.value) && r.value.modified == [] &&
                        RowData(Fetch(table.rows, id).value) ==
                          CategoryData(r.value.id, r.value.parentId, r.value.name, r.value.accountId)
    {
      var row := Fetch(table.rows, id);
      if row.Err? {
        return Err(row.error);
      }
      var c := new Category(RowData(row.value));
      r := Ok(c);
    }
  }
}
