/** modules/Account.js: an account and the users registered to it. `register` and
    `unregister` change the user list at once and record the change as pending, in
    `_addedUsers` or `_removedUsers`; `save` checks that the account keeps a user and then
    writes the pending changes to the `account_user` links and clears them. Loading an
    account parses the comma-joined user ids the query returns. */
module Accounts {
  import opened Wrappers
  import opened TimeError
  import opened Text
  import ArrayHelper

  /** A user given as its id or as a User object with an `id`. */
  datatype UserArg = UserNumber(n: int) | UserObject(userId: int)

  /** `typeof user === "number" ? user : user.id`. */
  function IdOf(user: UserArg): int
  {
    match user
    case UserNumber(n) => n
    case UserObject(u) => u
  }

  /** The `data` object the constructor copies its fields from. */
  datatype AccountData = AccountData(id: Option<int>, userIds: seq<int>)

  predicate NoDuplicates(xs: seq<int>)
  {
    forall i, j :: 0 <= i < j < |xs| ==> xs[i] != xs[j]
  }

  predicate Disjoint(xs: seq<int>, ys: seq<int>)
  {
    forall x :: x in xs ==> x !in ys
  }

  /** The `account_user` links a sync leaves: the pending additions inserted and the pending
      removals deleted. */
  function Synced(links: set<(int, int)>, account: int, added: seq<int>, removed: seq<int>): set<(int, int)>
  {
    (links + set u | u in added :: (account, u)) - set u | u in removed :: (account, u)
  }

  /** `sync` runs the inserts and the deletes concurrently; pending additions and removals
      never share a user, so either order gives the same links. */
  lemma SyncOrderIrrelevant(links: set<(int, int)>, account: int, added: seq<int>, removed: seq<int>)
    requires Disjoint(added, removed)
    ensures Synced(links, account, added, removed) ==
            (links - set u | u in removed :: (account, u)) + set u | u in added :: (account, u)
  {
    var ins := set u | u in added :: (account, u);
    var del := set u | u in removed :: (account, u);
    forall p | p in ins
      ensures p !in del
    {
      var u :| u in added && p == (account, u);
    }
  }

  /** Without a user id, the account's links after a sync are exactly the pending additions
      on top of the links it had, minus the pending removals. */
  lemma SyncedLinks(links: set<(int, int)>, account: int, added: seq<int>, removed: seq<int>, u: int)
    ensures (account, u) in Synced(links, account, added, removed) <==>
            ((account, u) in links || u in added) && u !in removed
  {
    if u in added {
      assert (account, u) in set v | v in added :: (account, v);
    }
    if u in removed {
      assert (account, u) in set v | v in removed :: (account, v);
    }
  }

  /** The `account` and `account_user` tables: the next account id and the links. */
  class AccountTable {
    var nextId: int
    var links: set<(int, int)>

    constructor ()
      ensures nextId == 1 && links == {}
    {
      nextId := 1;
      links := {};
    }

    /** `trx.insert({}).into('account')`: a new account's id. */
    method InsertAccount() returns (id: int)
      modifies this
      ensures id == old(nextId) && nextId == old(nextId) + 1 && links == old(links)
    {
      id := nextId;
      nextId := nextId + 1;
    }

    /** The `account_user` inserts and deletes of `sync`. */
    method WriteLinks(account: int, added: seq<int>, removed: seq<int>)
      modifies this
      ensures links == Synced(old(links), account, added, removed) && nextId == old(nextId)
    {
      links := Synced(links, account, added, removed);
    }
  }

  class Account {
    var id: Option<int>
    var userIds: seq<int>
    var added: seq<int>
    var removed: seq<int>

    /** `new Account(data)`: `data.id || null`, so a missing or zero id is null. */
    constructor (data: AccountData)
      ensures id == (if data.id == Some(0) then None else data.id)
      ensures userIds == data.userIds && added == [] && removed == []
    {
      added := [];
      removed := [];
      id := if data.id == Some(0) then None else data.id;
      userIds := data.userIds;
    }

    /** `handleRegistration(user, add)`. A repeated request does nothing. Otherwise the user
        list changes at once, and the change is recorded as pending unless it reverses a
        pending change of the other kind; in that case the pending lists are left as they
        are, since the filtered list is only bound to a local variable. */
    method HandleRegistration(user: UserArg, add: bool)
      modifies this
      ensures var u := IdOf(user);
              if (add && u in old(userIds)) || (!add && u !in old(userIds)) then
                userIds == old(userIds) && added == old(added) && removed == old(removed)
              else
                userIds == (if add then old(userIds) + [u] else ArrayHelper.RemoveAll(old(userIds), u)) &&
                added == (if add && u !in old(removed) then old(added) + [u] else old(added)) &&
                removed == (if !add && u !in old(added) then old(removed) + [u] else old(removed))
      ensures id == old(id)
      ensures NoDuplicates(old(userIds)) ==> NoDuplicates(userIds)
      ensures Disjoint(old(added), old(removed)) ==> Disjoint(added, removed)
      ensures IdOf(user) in userIds <==> add
    {
      var u := IdOf(user);
      var registered := u in userIds;
      var noAction := (add && registered) || (!add && !registered);
      if noAction {
        return;
      }
      var inAdded := u in added;
      var inRemoved := u in removed;
      var temp := (inRemoved && add) || (inAdded && !add);
      if temp {
        var removeFrom := if add then removed else added;
        removeFrom := ArrayHelper.RemoveAll(removeFrom, u);
      } else {
        if add {
          added := added + [u];
        } else {
          removed := removed + [u];
        }
      }
      if add {
        userIds := userIds + [u];
      } else {
        ArrayHelper.RemoveAllMembers(userIds, u);
        userIds := ArrayHelper.RemoveAll(userIds, u);
        NoDuplicatesAfterRemoval(old(userIds), u);
      }
    }

    /** `register(user)`. */
    method Register(user: UserArg)
      modifies this
      ensures var u := IdOf(user);
              if u in old(userIds) then
                userIds == old(userIds) && added == old(added) && removed == old(removed)
              else
                userIds == old(userIds) + [u] && removed == old(removed) &&
                added == (if u !in old(removed) then old(added) + [u] else old(added))
      ensures id == old(id) && IdOf(user) in userIds
      ensures NoDuplicates(old(userIds)) ==> NoDuplicates(userIds)
      ensures Disjoint(old(added), old(removed)) ==> Disjoint(added, removed)
    {
      HandleRegistration(user, true);
    }

    /** `unregister(user)`. */
    method Unregister(user: UserArg)
      modifies this
      ensures var u := IdOf(user);
              if u !in old(userIds) then
                userIds == old(userIds) && added == old(added) && removed == old(removed)
              else
                userIds == ArrayHelper.RemoveAll(old(userIds), u) && added == old(added) &&
                removed == (if u !in old(added) then old(removed) + [u] else old(removed))
      ensures id == old(id) && IdOf(user) !in userIds
      ensures NoDuplicates(old(userIds)) ==> NoDuplicates(userIds)
      ensures Disjoint(old(added), old(removed)) ==> Disjoint(added, removed)
    {
      HandleRegistration(user, false);
    }

    /** `save()`: nothing to do for a saved account without pending changes; an account
        without users is refused; otherwise `sync` inserts the account if it is new, writes
        the pending links and clears the pending lists. */
    method Save(table: AccountTable) returns (r: Outcome)
      requires Disjoint(added, removed)
      modifies this, table
      ensures Disjoint(added, removed)
      ensures r.Fail? <==> (old(id).None? || old(added) != [] || old(removed) != []) && old(userIds) == []
      ensures r.Fail? ==> r.error == InvalidState
      ensures r.Fail? || (old(id).Some? && old(added) == [] && old(removed) == []) ==>
                unchanged(this) && unchanged(table)
      ensures r.Pass? && (old(id).None? || old(added) != [] || old(removed) != []) ==>
                id == (if old(id).None? then Some(old(table.nextId)) else old(id)) &&
                table.nextId == (if old(id).None? then old(table.nextId) + 1 else old(table.nextId)) &&
                table.links == Synced(old(table.links), id.value, old(added), old(removed)) &&
                userIds == old(userIds) && added == [] && removed == []
    {
      var neverSaved := id.None?;
      var usersToAdd := |added| > 0;
      var usersToRemove := |removed| > 0;
      var changesToSave := neverSaved || usersToAdd || usersToRemove;
      if !changesToSave {
        return Pass;
      }
      if |userIds| == 0 {
        return Fail(InvalidState);
      }
      Sync(table);
      r := Pass;
    }

    /** `sync()`. */
    method Sync(table: AccountTable)
      modifies this, table
      ensures id == (if old(id).None? then Some(old(table.nextId)) else old(id))
      ensures table.nextId == (if old(id).None? then old(table.nextId) + 1 else old(table.nextId))
      ensures table.links == Synced(old(table.links), id.value, old(added), old(removed))
      ensures userIds == old(userIds) && added == [] && removed == []
    {
      if id.None? {
        var newId := table.InsertAccount();
        id := Some(newId);
      }
      table.WriteLinks(id.value, added, removed);
      added := [];
      removed := [];
    }
  }

  /** Removing an id keeps a list free of duplicates. */
  lemma NoDuplicatesAfterRemoval(xs: seq<int>, u: int)
    ensures NoDuplicates(xs) ==> NoDuplicates(ArrayHelper.RemoveAll(xs, u))
  {
  }

  /** A new user registered and unregistered again before saving is still listed as pending
      addition: the revert branch does not shrink the pending lists. */
  method RegisterThenUnregister(u: int) returns (account: Account)
    ensures fresh(account)
    ensures account.userIds == [] && account.added == [u] && account.removed == []
  {
    account := new Account(AccountData(None, []));
    account.Register(UserNumber(u));
    account.Unregister(UserObject(u));
  }

  /** A user may be passed by its id or as the User object: two accounts in the same state
      given the two forms of one user end in the same state. */
  method RegistrationByIdOrObject(a: Account, b: Account, n: int, add: bool)
    requires a != b
    requires a.id == b.id && a.userIds == b.userIds && a.added == b.added && a.removed == b.removed
    modifies a, b
    ensures a.id == b.id && a.userIds == b.userIds && a.added == b.added && a.removed == b.removed
  {
    a.HandleRegistration(UserNumber(n), add);
    b.HandleRegistration(UserObject(n), add);
  }

  // ---------------------------------------------------------------------------
  // Parsing the joined user ids

  /** The decimal digits of `n`, as `GROUP_CONCAT` prints an id. */
  function Decimal(n: nat): (s: string)
    ensures |s| >= 1 && forall i :: 0 <= i < |s| ==> IsAsciiDigit(s[i])
    decreases n
  {
    if n < 10 then [(48 + n) as char] else Decimal(n / 10) + [(48 + n % 10) as char]
  }

  /** The value of a string of decimal digits. */
  function DigitsValue(s: string): nat
    requires forall i :: 0 <= i < |s| ==> IsAsciiDigit(s[i])
    decreases |s|
  {
    if |s| == 0 then 0
    else
      var c := s[|s| - 1];
      assert IsAsciiDigit(c);
      DigitsValue(s[..|s| - 1]) * 10 + (c as int - '0' as int)
  }

  lemma {:induction false} DigitsValueOfDecimal(n: nat)
    ensures DigitsValue(Decimal(n)) == n
    decreases n
  {
    if n >= 10 {
      DigitsValueOfDecimal(n / 10);
      var s := Decimal(n);
      assert s[..|s| - 1] == Decimal(n / 10);
    }
  }

  /** JavaScript's unary `+` on a string of the shape `GROUP_CONCAT` produces: surrounding
      white space is ignored, and what is left is read as a numeral. */
  function UnaryPlus(s: string): (r: Option<int>)
    ensures (forall i :: 0 <= i < |s| ==> IsAsciiDigit(s[i])) && |s| > 0 ==> r == Some(DigitsValue(s))
    ensures |s| == 0 ==> r == Some(0)
    ensures (forall i :: 0 <= i < |s| ==> IsWhitespace(s[i])) ==> r == Some(0)
    ensures (exists i :: 0 <= i < |s| && !IsAsciiDigit(s[i]) && !IsWhitespace(s[i]) && s[i] != '+' && s[i] != '-') ==>
              r.None?
    ensures |s| >= 2 && (s[0] == '+' || s[0] == '-') && (forall i :: 0 <= i < |s| - 1 ==> IsAsciiDigit(s[1..][i])) ==>
              r == Some(if s[0] == '-' then -(DigitsValue(s[1..]) as int) else DigitsValue(s[1..]))
  {
    TrimOfWhitespace(s);
    DigitsAreRead(s);
    ForeignCharacterIsNaN(s);
    SignedDigitsAreRead(s);
    Numeral(Trim(s))
  }

  /** A character that is neither white space, digit nor sign makes the numeral NaN. */
  lemma ForeignCharacterIsNaN(s: string)
    ensures (exists i :: 0 <= i < |s| && !IsAsciiDigit(s[i]) && !IsWhitespace(s[i]) && s[i] != '+' && s[i] != '-') ==>
              Numeral(Trim(s)).None?
  {
    if i :| 0 <= i < |s| && !IsAsciiDigit(s[i]) && !IsWhitespace(s[i]) && s[i] != '+' && s[i] != '-' {
      TrimKeepsOtherCharacter(s, i);
      var j :| 0 <= j < |Trim(s)| && Trim(s)[j] == s[i];
      assert !IsAsciiDigit(Trim(s)[j]);
    }
  }

  /** Decimal digits alone are read as their value. */
  lemma DigitsAreRead(s: string)
    ensures (forall i :: 0 <= i < |s| ==> IsAsciiDigit(s[i])) && |s| > 0 ==> Numeral(Trim(s)) == Some(DigitsValue(s))
  {
    if forall i :: 0 <= i < |s| ==> IsAsciiDigit(s[i]) {
      assert forall i :: 0 <= i < |s| ==> !IsWhitespace(s[i]);
    }
  }

  /** A sign followed by digits is read with that sign. */
  lemma SignedDigitsAreRead(s: string)
    ensures |s| >= 2 && (s[0] == '+' || s[0] == '-') && (forall i :: 0 <= i < |s| - 1 ==> IsAsciiDigit(s[1..][i])) ==>
              Numeral(Trim(s)) == Some(if s[0] == '-' then -(DigitsValue(s[1..]) as int) else DigitsValue(s[1..]))
  {
    if |s| >= 2 && (s[0] == '+' || s[0] == '-') && (forall i :: 0 <= i < |s| - 1 ==> IsAsciiDigit(s[1..][i])) {
      TrimOfSigned(s);
      assert Trim(s) == s;
    }
  }

  /** A sign followed by digits has no white space to trim. */
  lemma TrimOfSigned(s: string)
    ensures |s| >= 2 && (s[0] == '+' || s[0] == '-') && (forall i :: 0 <= i < |s| - 1 ==> IsAsciiDigit(s[1..][i])) ==>
              Trim(s) == s
  {
    if |s| >= 2 && (s[0] == '+' || s[0] == '-') && (forall i :: 0 <= i < |s| - 1 ==> IsAsciiDigit(s[1..][i])) {
      forall i | 0 <= i < |s|
        ensures !IsWhitespace(s[i])
      {
        if i > 0 {
          assert s[i] == s[1..][i - 1];
        }
      }
    }
  }

  /** The numeral unary `+` reads once white space is trimmed: empty is 0, an optional sign
      precedes decimal digits, and anything else is NaN (`None`). */
  function Numeral(t: string): (r: Option<int>)
    ensures |t| == 0 ==> r == Some(0)
    ensures (forall i :: 0 <= i < |t| ==> IsAsciiDigit(t[i])) && |t| > 0 ==> r == Some(DigitsValue(t))
    ensures (exists i :: 0 <= i < |t| && !IsAsciiDigit(t[i]) && (i > 0 || (t[i] != '+' && t[i] != '-'))) ==> r.None?
    ensures |t| >= 2 && (t[0] == '+' || t[0] == '-') && (forall i :: 0 <= i < |t| - 1 ==> IsAsciiDigit(t[1..][i])) ==>
              r == Some(if t[0] == '-' then -(DigitsValue(t[1..]) as int) else DigitsValue(t[1..]))
  {
    if |t| == 0 then Some(0)
    else
      var sign := if t[0] == '-' then -1 else 1;
      var digits := if t[0] == '-' || t[0] == '+' then t[1..] else t;
      assert forall i :: 0 < i < |t| ==> t[i] == t[1..][i - 1];
      if |digits| > 0 && forall i :: 0 <= i < |digits| ==> IsAsciiDigit(digits[i]) then
        Some(sign * DigitsValue(digits))
      else None
  }

  /** A string of white space trims to the empty string. */
  lemma TrimOfWhitespace(s: string)
    ensures (forall i :: 0 <= i < |s| ==> IsWhitespace(s[i])) ==> Trim(s) == ""
  {
  }

  /** A character other than white space survives the trim. */
  lemma TrimKeepsOtherCharacter(s: string, i: int)
    requires 0 <= i < |s| && !IsWhitespace(s[i])
    ensures s[i] in Trim(s)
  {
  }

  /** `r` is `s` from position `k` on, with only white space before and after it. */
  predicate TrimmedAt(s: string, r: string, k: int)
  {
    0 <= k <= |s| - |r| && r == s[k..k + |r|] &&
    (forall i :: 0 <= i < k ==> IsWhitespace(s[i])) &&
    (forall i :: k + |r| <= i < |s| ==> IsWhitespace(s[i]))
  }

  /** A leading white-space character widens the trimmed-off prefix by one. */
  lemma TrimmedAtAfterLeading(s: string, r: string, k: int)
    requires |s| > 0 && IsWhitespace(s[0]) && TrimmedAt(s[1..], r, k)
    ensures TrimmedAt(s, r, k + 1)
  {
  }

  /** A trailing white-space character widens the trimmed-off suffix by one. */
  lemma TrimmedAtBeforeTrailing(s: string, r: string, k: int)
    requires |s| > 0 && IsWhitespace(s[|s| - 1]) && TrimmedAt(s[..|s| - 1], r, k)
    ensures TrimmedAt(s, r, k)
  {
  }

  /** The white space unary `+` ignores: the string without leading and trailing white space. */
  function Trim(s: string): (r: string)
    ensures |r| <= |s|
    ensures (forall i :: 0 <= i < |s| ==> !IsWhitespace(s[i])) ==> r == s
    ensures |r| > 0 ==> !IsWhitespace(r[0]) && !IsWhitespace(r[|r| - 1])
    ensures exists k :: TrimmedAt(s, r, k)
    decreases |s|
  {
    if |s| > 0 && IsWhitespace(s[0]) then
      var t := s[1..];
      var r := Trim(t);
      var k :| TrimmedAt(t, r, k);
      TrimmedAtAfterLeading(s, r, k);
      r
    else if |s| > 0 && IsWhitespace(s[|s| - 1]) then
      var t := s[..|s| - 1];
      var r := Trim(t);
      var k :| TrimmedAt(t, r, k);
      TrimmedAtBeforeTrailing(s, r, k);
      r
    else
      assert TrimmedAt(s, s, 0);
      s
  }

  /** `userIDs.split(',').map(id => +id)`. */
  function ParseUserIds(s: string): (r: seq<Option<int>>)
    ensures |r| == multiset(s)[','] + 1
    ensures |r| == |Split(s, ',')|
    ensures forall i :: 0 <= i < |r| ==> r[i] == UnaryPlus(Split(s, ',')[i])
  {
    SplitCount(s, ',');
    var parts := Split(s, ',');
    seq(|parts|, i requires 0 <= i < |parts| => UnaryPlus(parts[i]))
  }

  /** The comma-joined decimal ids of a group. */
  function JoinIds(ids: seq<nat>): string
  {
    Join(seq(|ids|, i requires 0 <= i < |ids| => Decimal(ids[i])), ',')
  }

  /** Parsing the joined ids of a non-empty group gives the ids back, in order. */
  lemma ParseJoinedIds(ids: seq<nat>)
    requires |ids| >= 1
    ensures |ParseUserIds(JoinIds(ids))| == |ids|
    ensures forall i :: 0 <= i < |ids| ==> ParseUserIds(JoinIds(ids))[i] == Some(ids[i] as int)
  {
    var parts := seq(|ids|, i requires 0 <= i < |ids| => Decimal(ids[i]));
    forall i | 0 <= i < |parts|
      ensures ',' !in parts[i]
    {
      assert forall k :: 0 <= k < |parts[i]| ==> IsAsciiDigit(parts[i][k]);
    }
    SplitJoin(parts, ',');
    forall i | 0 <= i < |ids|
      ensures UnaryPlus(parts[i]) == Some(ids[i] as int)
    {
      DigitsValueOfDecimal(ids[i]);
    }
  }
}
