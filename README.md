# Time-Core data layer, modelled in Dafny

This project models the core of Time-Core, a Node.js library that tracks time entries.

- **Categories** form one tree per account.
- **Entries** are EVENTs or RANGEs in a category.
- **Accounts** are linked to users.

The records are classes whose setters change props and note them as modified. `save`
inserts a never-saved record and otherwise updates the modified columns. Each database
table is a class holding its rows in primary-key order, so "the first row a query returns"
is the first matching row of the sequence.

The pure helpers are modelled as functions with the properties the library relies on:
- token generation and decoding;
- the password and email validators;
- `removeAll`;
- the set-once configuration cell.

Modules:

- `Categories` (modules/Category.js): the `category` table with the `category_setup` and `category_add` procedures, and the Category record.
- `Entries` (modules/Entry.js, helpers/date.js): the `entry` table, the Entry record's guarded setters, and `startFor`, `stopFor` and `logFor`.
- `Accounts` (modules/Account.js): membership change tracking, the save guard, the sync of the `account_user` links, and the parsing of joined user ids.
- `TokenHelper` (helpers/token.js): `generateToken`, with `Date.now()`, `process.pid` and `Math.random()` as parameters; `getTokenCreationTime`, including all of `parseInt(·, 16)`; and `getTokenPair`.
- `RegexHelper` (helpers/regex.js): the two regular expressions. Each is a recognizer written by hand, proved equal to a grammar stated directly from the pattern.
- `ArrayHelper` (lib/helpers.js), `ConfigStore` (lib/config.js).
- Supporting modules: `Text` (split, join, white space, ASCII case), `TimeError`, `Wrappers`.

Where the code and its tests disagree, the model follows the code:

- **Revert path.** `handleRegistration` only rebinds a local variable in its revert branch, so the pending lists are not shortened. test/test-account.js:129-148 expects them to shrink. `Accounts.RegisterThenUnregister` shows the behaviour as written.
- **Error constants.** modules/TimeError.js defines only three of the error constants the modules throw. The model gives each thrown constant its own value.

Other modelling choices:

- **Undefined bindings.** An `undefined` value bound into a query makes the query builder fail. Read queries therefore report BAD_CONNECTION, and the `category_add` call is refused with the driver's own error (`DatabaseError`).
- **Stored procedures.** Their SQL is not part of this model. `category_setup` is modelled as idempotent: it gives an account one root. `category_add` is modelled as refusing a parent that is not in the given account.

## Model

| member | source | states |
|---|---|---|
| Categories.RootId | modules/Category.js:5-12 | the id of the first row without parent in the account (a null account matches rows without account); undefined exactly when no such row exists; never null |
| Categories.AccountOf | modules/Category.js:14-20 | the account of the first row whose id is the parent; undefined exactly when no row has that id |
| Categories.Fetch | modules/Category.js:78-99 | an undefined id gives BAD_CONNECTION; otherwise a row is returned exactly when one has the id, it is a table row with that id, and the failure is NOT_FOUND |
| Categories.RowsUnder | modules/Category.js:78-99 | the returned rows are exactly the table rows whose parent is the given id |
| Categories.ResolvePlacement | modules/Category.js:25-39 | refused with INSUFFICIENT_PARENT_OR_ACCOUNT exactly when neither parent nor account is set; a set prop is kept; a missing account is the parent's account; a missing parent is the account's root |
| Categories.AddVerdict | modules/Category.js:41-62 | the insert succeeds exactly when account, parent and name are all defined and the parent is a category of that account; with every binding defined, the failure is INCONSISTENT_PARENT_AND_ACCOUNT |
| Categories.BuildCategoryUpdate | modules/Category.js:67-70 | the loop over the modified props builds exactly the update that holds each modified prop's current value |
| Categories.UpdateWritesModifiedProps | modules/Category.js:65-76 | applying that update writes each modified prop into the saved record's row, leaves its other columns, and leaves every other row unchanged |
| Categories.RootsOfDistinctAccountsDiffer | modules/Category.js:5-12 | with ids ascending, two distinct accounts never get the same root id |
| Categories.RootIdOfAppended | modules/Category.js:5-12 | appending a root to an account without one makes it that account's root, and keeps at most one root per account |
| Categories.CategoryTable.Setup | test/test-nested-set.js:44-62 | the returned id is the account's root afterwards; an existing root is returned with the table unchanged; otherwise exactly one root row is appended; at most one root per account is preserved |
| Categories.CategoryTable.Add | modules/Category.js:41-45 | success appends exactly the row `(new id, parent, account, name)` under the next id; a failure leaves the table unchanged and reports the AddVerdict error; at most one root per account is preserved |
| Categories.CategoryTable.Update | modules/Category.js:71 | the rows become the update applied to the old rows; ids are preserved |
| Categories.Category.constructor | modules/Category.js:138-147 | the id, parent, name and account are copied from the data as given, undefined ones included; no prop is modified |
| Categories.Category.SetName | modules/Category.js:104-107 | sets the name and appends `name` to the modified props; other props unchanged |
| Categories.Category.SetAccount | modules/Category.js:110-114 | a number is the new account id; an Account object gives its id (null when unsaved); `account_id` is appended to the modified props |
| Categories.Category.SetParent | modules/Category.js:123-131 | accepted exactly for null or a saved Category; otherwise INVALID_TYPE with nothing changed; on success the parent is null or that category's id, and `parent_id` is appended |
| Categories.Category.GetParent | modules/Category.js:116-122 | a null parent gives null; an undefined parent gives BAD_CONNECTION; otherwise the parent row is found exactly when a row with that id exists |
| Categories.Category.GetChildren | modules/Category.js:133-136 | an unsaved category gives BAD_CONNECTION; otherwise exactly the rows whose parent is this category |
| Categories.Category.InsertRecord | modules/Category.js:22-63 | an unresolvable placement or a refused insert changes nothing and reports its error; success sets the id to the new row's, stores the resolved parent and account, clears the modified props, and appends exactly that row |
| Categories.Category.UpdateRecord | modules/Category.js:65-76 | the table receives exactly the update built from the modified props; the modified props are cleared; the other props are unchanged |
| Categories.Category.Save | modules/Category.js:149-158 | a saved, unmodified category is a no-op; a new one is inserted exactly when its placement resolves and `category_add` accepts it, with the placement's or the procedure's error and nothing changed otherwise; a saved, modified one gets exactly its modified props written and cleared |
| Categories.Category.FetchCategory | modules/Category.js:160-166 | fails exactly when the row lookup fails, with its error; otherwise a fresh, unmodified category holding that row's values |
| Entries.ToDb | helpers/date.js:3-6 | null exactly for a missing date; otherwise the whole second the instant falls in |
| Entries.Instant | helpers/date.js:8-11 | `fromDb`: null exactly for an undefined or null time, otherwise that instant |
| Entries.ToDbFromDb | helpers/date.js:3-11 | storing a value read back from the table stores the same value |
| Entries.FromDbToDb | helpers/date.js:3-11 | reading back a stored instant gives it to the second |
| Entries.Fetch | modules/Entry.js:62-96 | a row is returned exactly when one has the id; it is a table row with that id; otherwise NOT_FOUND |
| Entries.OpenRanges | modules/Entry.js:196-201 | exactly the rows of the category that are RANGEs without an end; empty exactly when no row is one |
| Entries.OpenRangesAppend | modules/Entry.js:196-201 | the open ranges of appended rows follow those of the rows before them |
| Entries.BuildEntryUpdate | modules/Entry.js:33-54 | the steps that take out `type`, `started_at` and `ended_at` with removeAll, then copy what is left, build exactly each modified prop's stored value; only `category_id` can be left over |
| Entries.EmptyUpdateOnlyForUndefinedCategory | modules/Entry.js:52-55 | a modified entry's update has no defined value exactly when its only modified prop is the category and that category is unsaved |
| Entries.UpdateWritesModifiedProps | modules/Entry.js:33-60 | applying that update writes each modified prop into the saved entry's row (times as whole seconds, an undefined category left out) and leaves every other row unchanged |
| Entries.StopClosesTheOpenRange | modules/Entry.js:214-228 | ending the only open range of a category leaves the category with no open range |
| Entries.StartOpensOneRange | modules/Entry.js:196-212 | appending an open range to a category that had none makes it the only one |
| Entries.EntryTable.Insert | modules/Entry.js:25-27 | appends exactly the given row under the next id |
| Entries.EntryTable.Update | modules/Entry.js:55 | the rows become the update applied to the old rows |
| Entries.Entry.constructor | modules/Entry.js:145-157 | the id, type, category and both times are copied from the data as given, undefined ones included; no prop is modified |
| Entries.Entry.StartedAt | modules/Entry.js:118-120 | the `startedAt` getter: null exactly when no start instant is held, otherwise that instant |
| Entries.Entry.EndedAt | modules/Entry.js:128-130 | the `endedAt` getter: null exactly when no end instant is held, otherwise that instant |
| Entries.Entry.SetCategory | modules/Entry.js:99-103 | a number is the new category id; a Category object gives its id; `category_id` is appended to the modified props |
| Entries.Entry.SetStartedAt | modules/Entry.js:121-126 | refused with INVALID_STATE, changing nothing, exactly when the type is undefined; otherwise sets the start and appends `started_at` |
| Entries.Entry.SetEndedAt | modules/Entry.js:131-143 | accepted exactly for a RANGE with a start; otherwise INVALID_STATE with nothing changed; on success sets the end and appends `ended_at` |
| Entries.Entry.SetType | modules/Entry.js:108-116 | leaving RANGE clears the end to null and records `ended_at` then `type`; this fails with INVALID_STATE, changing nothing, exactly when the range has no start; any other change records `type` alone |
| Entries.Entry.Start | modules/Entry.js:159-161 | the start becomes `now`, unless the type is undefined (INVALID_STATE, nothing changed) |
| Entries.Entry.Stop | modules/Entry.js:163-165 | the end becomes `now` under the `endedAt` setter's rule |
| Entries.Entry.InsertRecord | modules/Entry.js:9-31 | refused with INVALID_STATE, changing nothing, exactly when category or type is undefined; otherwise an entry without start is started now, exactly its row is appended, it gets the new id, and its modified props are cleared |
| Entries.Entry.UpdateRecord | modules/Entry.js:33-60 | an update left with no defined value is rejected and changes nothing; otherwise the table receives exactly the update built from the modified props and they are cleared |
| Entries.Entry.Save | modules/Entry.js:167-176 | a saved, unmodified entry is a no-op; a new one is inserted as InsertRecord states; a modified one is rejected, unchanged, exactly when its update has no defined value, and otherwise gets exactly its modified props written and cleared |
| Entries.Entry.FetchEntry | modules/Entry.js:178-184 | NOT_FOUND exactly when no row has the id; otherwise a fresh, unmodified entry holding that row's values |
| Entries.Entry.StartFor | modules/Entry.js:196-212 | INVALID_ACTION, table unchanged, when the category has an open range; otherwise a new RANGE of the category started now is appended, and it is then the category's only open range |
| Entries.Entry.StopFor | modules/Entry.js:214-228 | INVALID_ACTION, table unchanged, unless the category has exactly one open range; otherwise that entry's end is set to now, only that column is written, and the category has no open range left |
| Entries.Entry.LogFor | modules/Entry.js:230-237 | a new EVENT of the category, started now and without an end, is appended; an unsaved category is refused with INVALID_STATE |
| Accounts.RegistrationByIdOrObject | modules/Account.js:5-6 | two accounts in the same state, given a user as its id and as the User object with that id, are left in the same state by either registration direction |
| Accounts.AccountTable.InsertAccount | modules/Account.js:38-44 | `insert({}).into('account')`: the new account gets the next id and the links are untouched |
| Accounts.AccountTable.WriteLinks | modules/Account.js:48-62 | the links become the old links plus the pending additions minus the pending removals, for this account |
| Accounts.Account.constructor | modules/Account.js:120-127 | the id falls back to null when it is missing or falsy, so an id of 0 is null too; the user ids are copied (a missing list is the empty one); both pending lists start empty |
| Accounts.Account.HandleRegistration | modules/Account.js:5-29 | a repeated request changes nothing; otherwise the user list gains or loses the id at once, and the change is recorded as pending unless it reverses a pending change; the result is registered exactly when adding; no duplicates are introduced; pending additions and removals stay disjoint |
| Accounts.Account.Register | modules/Account.js:130-132 | an unregistered id is appended to the users, and to the pending additions unless it was pending removal; a registered id changes nothing; no duplicate is introduced |
| Accounts.Account.Unregister | modules/Account.js:134-136 | a registered id is removed from the users and appended to the pending removals unless it was pending addition; an unregistered id changes nothing |
| Accounts.Account.Save | modules/Account.js:138-151 | a saved account without pending changes is a no-op; otherwise an account without users is refused with INVALID_STATE and nothing changes; a sync gives a new account the next id, writes the pending links, and leaves both pending lists empty |
| Accounts.Account.Sync | modules/Account.js:31-72 | a new account gets the next id; the links gain the pending additions and lose the pending removals; both pending lists are emptied |
| Accounts.SyncOrderIrrelevant | modules/Account.js:47-64 | since pending additions and removals never share a user, running the concurrent inserts and deletes in either order gives the same links |
| Accounts.SyncedLinks | modules/Account.js:47-64 | after a sync a user is linked exactly when it was linked or pending addition, and is not pending removal |
| Accounts.NoDuplicatesAfterRemoval | modules/Account.js:27 | filtering an id out of a list without duplicates keeps it without duplicates |
| Accounts.RegisterThenUnregister | modules/Account.js:15-19 | registering and then unregistering a new user leaves no users, but the user is still pending addition |
| Accounts.UnaryPlus | modules/Account.js:111 | a non-empty digit string is its decimal value; the empty or all white space string is 0; a sign followed by digits is read with that sign; any character that is not white space, digit or sign makes it NaN (`None`) |
| Accounts.Numeral | modules/Account.js:111 | once white space is gone: empty is 0, digits are their value, a sign before digits is applied, and a character out of place is NaN |
| Accounts.Trim | modules/Account.js:111 | the white space unary `+` ignores at both ends: the result is a contiguous piece of the string with only white space before and after it, never longer, unchanged without white space, and neither starting nor ending with white space |
| Accounts.TrimOfWhitespace | modules/Account.js:111 | a string of white space trims to the empty string |
| Accounts.TrimKeepsOtherCharacter | modules/Account.js:111 | every character other than white space survives the trim |
| Accounts.DigitsAreRead | modules/Account.js:111 | decimal digits alone are read as their value after the trim |
| Accounts.ForeignCharacterIsNaN | modules/Account.js:111 | a character that is not white space, digit or sign makes the result NaN |
| Accounts.SignedDigitsAreRead | modules/Account.js:111 | a sign followed by digits has nothing to trim and is read with that sign |
| Accounts.TrimOfSigned | modules/Account.js:111 | a sign followed by digits is left unchanged by the trim |
| Accounts.ParseUserIds | modules/Account.js:109-113 | as many values as the string has commas plus one, each the unary plus of its comma-separated field; ParseJoinedIds proves the ids of a group come back in order |
| Accounts.ParseJoinedIds | modules/Account.js:109-113 | the comma-joined decimal ids of a non-empty group parse back to the ids, in order |
| Accounts.DigitsValueOfDecimal | modules/Account.js:111 | the decimal digits of a number denote that number |
| TokenHelper.Hex | helpers/token.js:5 | `toString(16)` is at least one lower-case hexadecimal digit |
| TokenHelper.HexValueOfHex | helpers/token.js:5 | the digits written by `toString(16)` denote the number |
| TokenHelper.HexLength | helpers/token.js:21-23 | a number below 16^k has at most k hexadecimal digits |
| TokenHelper.TrimStart | helpers/token.js:34-37 | the skipped prefix is white space and what is left does not start with white space |
| TokenHelper.HexRunLength | helpers/token.js:34-37 | the leading run of hexadecimal digits is maximal |
| TokenHelper.Substr | helpers/token.js:37 | within bounds, `substr(start, length)` is exactly that slice |
| TokenHelper.ParseInt16 | helpers/token.js:34-37 | `parseInt(·, 16)`: leading white space, a sign, an optional `0x`, then the longest run of hexadecimal digits, NaN without one; its meaning is proved by ParseHex (a hexadecimal form reads back as its number) and ParseOneChar (one character is its digit value or NaN) |
| TokenHelper.ParseHexDigits | helpers/token.js:37 | `parseInt(·, 16)` of a run of lower-case hexadecimal digits is its value |
| TokenHelper.ParseHex | helpers/token.js:37 | `parseInt(n.toString(16), 16) == n` |
| TokenHelper.ParseOneChar | helpers/token.js:34-35 | `parseInt` of a one-character string is the digit's value, or NaN for a non-digit |
| TokenHelper.ParseOneDigit | helpers/token.js:34-35 | a digit written by `toString(16)` parses back to its value |
| TokenHelper.Stamp | helpers/token.js:5-6 | the possibly upper-cased stamp has the length of the hexadecimal time and lower-cases back to it |
| TokenHelper.CreationTime | helpers/token.js:33-39 | `getTokenCreationTime`: the prefix length digit, the stamp length digit after the prefix, then the stamp read in base 16; CreationTimeOfLayout proves it inverts the token layout |
| TokenHelper.CreationTimeOfLayout | helpers/token.js:20-38 | for any prefix shorter than 16 and time below 16^15, decoding the assembled token gives back exactly the time, whichever case the stamp has |
| TokenHelper.GenerateToken | helpers/token.js:1-31 | the token is `hex(|prefix|) + prefix + hex(|stamp|) + stamp + suffix`; the prefix has 5 to 14 alphabet characters; the suffix is the pid hex extended with alphabet characters to 15-24 characters (or kept whole when longer); decoding it gives back `now` |
| TokenHelper.Expiration | helpers/token.js:49-59 | defined exactly when the creation time is, and exactly the life span in milliseconds after it |
| TokenHelper.GetTokenPair | helpers/token.js:41-65 | each creation time is the one decoded from its token, and equals the `now` used; access tokens expire 14,400,000 ms and refresh tokens 1,209,600,000 ms after creation |
| RegexHelper.ValidPassword | helpers/regex.js:2-5 | `validPassword`: the anchored repetition of 8 to 30 allowed characters; ValidPasswordExactly states its language |
| RegexHelper.RepetitionExactly | helpers/regex.js:2 | `[…]{min,max}` matches exactly the strings of min to max characters of the class |
| RegexHelper.ValidPasswordExactly | helpers/regex.js:2-5 | a password is valid exactly when it has 8 to 30 characters from `[a-zA-Z0-9@*#!%$_-]` |
| RegexHelper.ShortPasswordRefused | helpers/regex.js:2-5 | "short" is refused |
| RegexHelper.LetterPasswordAccepted | helpers/regex.js:2-5 | "myValidPassword" is accepted |
| RegexHelper.ValidEmail | helpers/regex.js:1-4 | `validEmail`: a local part, the last "@", then a domain; ValidEmailMatchesGrammar proves it accepts exactly the pattern's grammar |
| RegexHelper.LastIndexOf | helpers/regex.js:1 | absent exactly when the character does not occur; otherwise its last position |
| RegexHelper.NotInJoin | helpers/regex.js:1 | joining pieces without a character (other than the separator) does not introduce it |
| RegexHelper.DotAtomsAgree | helpers/regex.js:1 | the local-part recognizer accepts exactly the dot-separated non-empty atoms |
| RegexHelper.HostNameHasForm | helpers/regex.js:1 | a recognized host name is labels, each followed by a dot, then a top-level name of at least two letters |
| RegexHelper.HostNameFormRecognized | helpers/regex.js:1 | every such host name is recognized |
| RegexHelper.HostNameAgrees | helpers/regex.js:1 | host-name recognizer and grammar agree in both directions |
| RegexHelper.Bracketed | helpers/regex.js:1 | a string between brackets is its inside, bracketed |
| RegexHelper.AddressLiteralHasForm | helpers/regex.js:1 | a recognized literal domain is "[" and four 1–3-digit groups separated by dots, then "]" |
| RegexHelper.AddressLiteralFormRecognized | helpers/regex.js:1 | every such literal is recognized |
| RegexHelper.AddressLiteralAgrees | helpers/regex.js:1 | literal-domain recognizer and grammar agree in both directions |
| RegexHelper.DomainHasNoAt | helpers/regex.js:1 | no domain contains "@", so the address splits at its last "@" |
| RegexHelper.LastIndexOfUnique | helpers/regex.js:1 | an occurrence with none after it is the last one |
| RegexHelper.LocalPartHasForm | helpers/regex.js:1 | a recognized local part is dot atoms or a quoted string |
| RegexHelper.DomainHasForm | helpers/regex.js:1 | a recognized domain is a literal or a host name |
| RegexHelper.ValidEmailIsGrammatical | helpers/regex.js:1-4 | every accepted address is local part "@" domain in the grammar |
| RegexHelper.LocalFormRecognized | helpers/regex.js:1 | every grammatical local part is recognized |
| RegexHelper.DomainFormRecognized | helpers/regex.js:1 | every grammatical domain is recognized and has no "@" |
| RegexHelper.EmailFormAtRecognized | helpers/regex.js:1-4 | an address split into grammatical parts at an "@" is accepted |
| RegexHelper.GrammaticalEmailIsValid | helpers/regex.js:1-4 | every grammatical address is accepted |
| RegexHelper.ValidEmailMatchesGrammar | helpers/regex.js:1-4 | `validEmail` holds exactly for the addresses of the anchored grammar |
| RegexHelper.AddressWithoutAtRefused | helpers/regex.js:1-4 | any string without "@" — "this_is_not_an_email" among them — is refused |
| RegexHelper.LowerCaseWord | helpers/regex.js:1 | a lower-case word is an atom and a label, and a top-level name when at least two letters long |
| RegexHelper.LowerCaseAddressAccepted | helpers/regex.js:1-4 | every `word@word.word` of lower-case letters with a top-level name of two or more letters is accepted |
| RegexHelper.SampleAddressAccepted | helpers/regex.js:1-4 | "email@webmail.com" is accepted |
| ArrayHelper.RemoveAll | lib/helpers.js:8-9 | the result is no longer than the input, holds no element equal to the item, and keeps every other element |
| ArrayHelper.RemoveAllCounts | lib/helpers.js:8-9 | every other element keeps its multiplicity; the item's is zero |
| ArrayHelper.RemoveAllKeepsOrder | lib/helpers.js:8-9 | the result is a subsequence of the input |
| ArrayHelper.RemoveAllMembers | lib/helpers.js:8-9 | an element is in the result exactly when it is in the input and differs from the item |
| ArrayHelper.RemoveAllAbsent | lib/helpers.js:8-9 | removing an absent item changes nothing |
| ArrayHelper.RemoveAllIdempotent | lib/helpers.js:8-9 | removing twice is removing once |
| ConfigStore.StoredNeverChanges | lib/config.js:8-10 | once a configuration is stored, no sequence of later calls changes it |
| ConfigStore.StoredIsFirstNonNull | lib/config.js:6-12 | from the empty cell, a run of calls stores exactly the first non-null argument |
| ConfigStore.ConfigCell.Configure | lib/config.js:5-13 | a stored value never changes; the first non-null argument is stored; null stores nothing; the call returns the stored value |
| Text.Split | modules/Account.js:111 | `split` yields at least one piece and no piece contains the separator; JoinSplit and SplitJoin make it the inverse of Join |
| Text.SplitCount | modules/Account.js:111 | a split has exactly one more piece than the string has separators |
| Text.Join | modules/Account.js:111 | `join`: the pieces with the separator between them; JoinSplit and SplitJoin prove it inverts Split |
| Text.JoinSplit | modules/Account.js:111 | joining the pieces of a split gives the string back |
| Text.SplitJoin | modules/Account.js:111 | splitting a join of separator-free pieces gives the pieces back |

## Left out

- The SQL of `category_setup` and `category_add`, and the `lft`/`rgt` nested-set numbering: they are stored procedures outside this repository. The model keeps only the contracts test/test-nested-set.js checks: one root per account, and the parent must be in the account.
- Category moves and deletes, which renumber the nested set: they are procedures outside this repository. Changing a parent is a plain column update, as in the source.
- The query builder, transactions and promises: the tables are in memory, each operation is one atomic step, and the concurrency of `sync` is covered only by SyncOrderIrrelevant.
- `Account.fetch` and `Account.findForUser`: the modelled part is the parsing of the joined ids. A fetched account with no users, whose joined ids are NULL (the source then fails on `null.split`), is not modelled.
- The query filters of `Entry.findFor` beyond the category, type and open-end filter of `startFor`/`stopFor`.
- Foreign-key and type checks of the database, such as an entry whose category does not exist: a modelled insert always succeeds.
- Moment formatting: a time is stored as its whole second since the epoch; time zones and the text format are not modelled.
- Entry types other than EVENT and RANGE: setting an unknown type string is not modelled.
- Entries.Entry.SetCategory: a category of `null` is not accepted. The source appends `category_id` to the modified props and then fails with a JavaScript TypeError reading `null.id`; the model has no such argument.
- Accounts.AccountTable.WriteLinks: the links are a set. `register(u)`, `unregister(u)`, `register(u)` leaves `u` pending addition twice through the revert path, and `sync` then inserts the same `account_user` pair twice; whether that adds a second row or fails on a key depends on the table's schema, which is not part of this model.
- Categories.AddVerdict: a missing name and a `name` of `null` are both `None`, and both are refused as a driver error. The source passes a null name on to `category_add`, whose SQL is outside this repository.
- Categories.Category.SetAccount: an account of `null` is not accepted. The source appends `account_id` to the modified props and then fails with a JavaScript TypeError reading `null.id`; the model has no such argument.
- The query builder's rejection of an update with no defined value (an entry whose only modified prop is an unsaved category) is modelled as a DatabaseError; the error's message is not.
- A Category constructed with a null id: it is treated like an undefined id.
- modules/User.js, modules/Token.js, modules/Import.js and helpers/crypto.js are not part of this model; bcrypt and md5 are foreign code.
- `Date.now()`, `process.pid` and `Math.random()`: these are parameters. Every `Date.now()` call inside one operation reads the same `now`.
- JavaScript numbers: they are unbounded integers. Rounding above 2^53 and `-0` are not modelled.
- TokenHelper.GenerateToken: decoding is proved only for times below 16^15, because the stamp length is written as one hexadecimal digit. A later `Date.now()` would not decode.
- Accounts.UnaryPlus: it covers white space, an optional sign and decimal digits. Fractions, exponents, `Infinity` and `0x`/`0o`/`0b` prefixes give a number in JavaScript but `None` here. Joined ids never contain them.
- Text.ToUpper and Text.ToLower: they map ASCII letters only, which is all a hexadecimal stamp contains.
- ConfigStore: a configuration object is abstracted to a map of strings.
