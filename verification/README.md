# Infinite state machine: SQL text builders and MySQL coordination store

This project models the data access core of the infinite state machine
library in Dafny and proves properties of the model.

- **The CREATE TABLE builders of both data access objects.** The MySQL one
  renders a typed default ("string" quoted, "function" verbatim, anything
  else `InvalidDefaultTypeException`); the SQLite one always quotes its
  default. Each appends one line per column, closes with `);` and then
  deletes the last `,` of the whole text.
- **The SQLite INSERT builders** for the `state_machine` and `state` tables.
- **The extract-transform-load step** (`JsonToSqlEtl`). It turns an action
  pack's data file into INSERT statements, one per row of values. A
  `select`, `update` or `delete` item makes the result null.
- **The MySQL object's coordination store.** It covers the run phase option
  group, action flags and payloads, the "Before"/"After" barriers, key/value
  properties, named states and the message inbox. Every flag is the text
  `"1"` or `"0"`.
- **The database-name choice of the MySQL constructor.** It depends on
  `dbMode`: OVERWRITE, UNIQUE or an error.

All builders share one text idiom: `sb.deleteCharAt(sb.toString().lastIndexOf(','))`.
`SqlText.DeleteLastComma` models it exactly, including the
`StringIndexOutOfBoundsException(-1)` thrown when the text holds no comma.
The builders are imperative methods over a `StringBuilder` class, each proved
equal to a specification function. Lemmas then state the shape of the text
that function yields. A JSON value that can hold a comma can also move the
deleted comma: a comma in a column's comment, or a table without columns
whose name holds one. The model keeps these cases as the code has them and
states each one (`Ddl.CommaInFinalComment`, `Ddl.NoColumns`,
`JsonToSqlEtl.BeginningWithoutColumns`).

The store keeps each table as a sequence of row values. Each SQL statement
is a function on those sequences: a SELECT is `Tables.Select`, an UPDATE
with a WHERE clause is `Tables.Update`. The class `MysqlStore.Mysql` holds
the tables as fields, and its methods run those functions in place. Exceptions are values of
`JavaLang.Result` / `JavaLang.Outcome`; a Java `null` result is
`JavaLang.Option.None`.

Source paths in the table are relative to the repository root.

## Model

| member | source | states |
|---|---|---|
| JavaLang.LastIndexOf | src/main/java/com/github/museadmin/infinite_state_machine/common/dal/Mysql.java:233 | String.lastIndexOf: -1 or an index holding the character, and no occurrence after it |
| JavaLang.CharDeleted | src/main/java/com/github/museadmin/infinite_state_machine/common/dal/Mysql.java:234 | deleteCharAt succeeds exactly for 0 <= index < length, removing that one character and keeping both sides; otherwise StringIndexOutOfBounds(index) |
| JavaLang.ToUpperCase | src/main/java/com/github/museadmin/infinite_state_machine/common/dal/Mysql.java:49 | same length, every character upper-cased |
| JavaLang.ToUpperCaseIdempotent | src/main/java/com/github/museadmin/infinite_state_machine/common/dal/Mysql.java:49 | upper-casing an upper-cased mode changes nothing |
| JavaLang.StringBuilder.Append | src/main/java/com/github/museadmin/infinite_state_machine/common/utils/JsonToSqlEtl.java:52 | the text grows by exactly the appended string |
| JavaLang.StringBuilder.DeleteCharAt | src/main/java/com/github/museadmin/infinite_state_machine/common/utils/JsonToSqlEtl.java:82 | in place: the character is removed, or the call throws and the text is unchanged |
| SqlText.DeleteLastComma | src/main/java/com/github/museadmin/infinite_state_machine/common/utils/JsonToSqlEtl.java:81-83 | the idiom succeeds iff the text holds a comma, else throws StringIndexOutOfBounds(-1); on success exactly one comma is gone (length - 1, multiset plus one ',' is the original) |
| SqlText.DeleteLastCommaSplit | src/main/java/com/github/museadmin/infinite_state_machine/common/utils/JsonToSqlEtl.java:82 | the comma followed by no other comma is the one deleted, and everything else is kept in place |
| SqlText.DeleteLastCommaInside | src/main/java/com/github/museadmin/infinite_state_machine/common/dal/Sqlite3.java:99-101 | the same for a comma inside a middle piece of the text |
| SqlText.DeleteLastCommaNone | src/main/java/com/github/museadmin/infinite_state_machine/common/utils/JsonToSqlEtl.java:82 | a comma-free text makes the idiom throw StringIndexOutOfBounds(-1) |
| SqlText.LastCommaSplit | src/main/java/com/github/museadmin/infinite_state_machine/common/utils/JsonToSqlEtl.java:82 | any text with a comma splits around its last comma, and the idiom joins the two sides |
| SqlText.QuotedListIsJoinedPlusComma | src/main/java/com/github/museadmin/infinite_state_machine/common/utils/JsonToSqlEtl.java:69-71 | what the loop appends for a non-empty array is the comma-separated reference rendering plus one trailing comma |
| SqlText.QuotedListComma | src/main/java/com/github/museadmin/infinite_state_machine/common/utils/JsonToSqlEtl.java:54-56 | the appended list holds a comma iff the array holds at least one value |
| SqlText.DeleteTrailingSeparator | src/main/java/com/github/museadmin/infinite_state_machine/common/dal/Sqlite3.java:96-101 | with nothing comma-bearing after it, the list's trailing separator is the comma deleted |
| SqlText.DeleteTrailingComma | src/main/java/com/github/museadmin/infinite_state_machine/common/utils/JsonToSqlEtl.java:54-57 | a non-empty list at the end of the text loses exactly its trailing separator |
| SqlText.AppendValues | src/main/java/com/github/museadmin/infinite_state_machine/common/utils/JsonToSqlEtl.java:69-71 | the loop appends every value quoted and followed by ',', in array order |
| Tables.Select | src/main/java/com/github/museadmin/infinite_state_machine/common/dal/Mysql.java:398-399 | a SELECT returns exactly the rows satisfying its WHERE clause, never more rows than the table, and nothing iff no row matches |
| Tables.SelectCounts | src/main/java/com/github/museadmin/infinite_state_machine/common/dal/Mysql.java:398-399 | a SELECT keeps every copy of a matching row and drops every copy of a non-matching one |
| Tables.SelectAppend | src/main/java/com/github/museadmin/infinite_state_machine/common/dal/Mysql.java:398-399 | a row appended to the table is appended to the result iff it matches, so the result is the matching rows in table order |
| Tables.SelectFirst | src/main/java/com/github/museadmin/infinite_state_machine/common/dal/Mysql.java:401 | the first row returned is the table's first matching row |
| Tables.Update | src/main/java/com/github/museadmin/infinite_state_machine/common/dal/Mysql.java:375-380 | an UPDATE changes exactly the matching rows and moves none |
| Ddl.Definition | src/main/java/com/github/museadmin/infinite_state_machine/common/dal/Mysql.java:190-218 | a column definition starts with the name, a space and the type; a column with no NOT NULL, no default and no key is exactly "name type" |
| Ddl.Line | src/main/java/com/github/museadmin/infinite_state_machine/common/dal/Mysql.java:190-227 | the character right after a column's definition is its separator's comma |
| Ddl.Statement | src/main/java/com/github/museadmin/infinite_state_machine/common/dal/Mysql.java:230-236 | a table with at least one column never throws; the only exception is StringIndexOutOfBounds(-1); the statement is one character shorter than the assembled text |
| Ddl.LinesAppend | src/main/java/com/github/museadmin/infinite_state_machine/common/dal/Mysql.java:187-228 | the column lines of a concatenation are the concatenated lines: columns come out in input order |
| Ddl.AppendNameAndType | src/main/java/com/github/museadmin/infinite_state_machine/common/dal/Mysql.java:190-197 | appends "name type" and " NOT NULL" exactly when the column is not null |
| Ddl.AppendKeyAndComment | src/main/java/com/github/museadmin/infinite_state_machine/common/dal/Mysql.java:216-227 | appends " PRIMARY KEY" for a key, then ", ", then "-- comment" when there is one, then " \n" |
| Ddl.FinalSeparatorDeleted | src/main/java/com/github/museadmin/infinite_state_machine/common/dal/Mysql.java:230-236 | when the final comment holds no comma, every earlier line is verbatim and only the final ", " loses its comma |
| Ddl.CommaInFinalComment | src/main/java/com/github/museadmin/infinite_state_machine/common/dal/Mysql.java:222-234 | when the final comment holds a comma, that comment's last comma is deleted instead and the final ", " survives |
| Ddl.NoColumns | src/main/java/com/github/museadmin/infinite_state_machine/common/dal/Mysql.java:178-236 | with no columns the builder throws unless the table name holds a comma, whose last one is then deleted |
| Ddl.NonEmptySucceeds | src/main/java/com/github/museadmin/infinite_state_machine/common/dal/Mysql.java:230-236 | a table of at least one column never throws, and the statement is the assembled text minus exactly one comma |
| MysqlSchema.DefaultClause | src/main/java/com/github/museadmin/infinite_state_machine/common/dal/Mysql.java:199-214 | succeeds iff the default type is "string" or "function", else InvalidDefaultType(type); an empty value adds nothing |
| MysqlSchema.Render | src/main/java/com/github/museadmin/infinite_state_machine/common/dal/Mysql.java:190-227 | a column renders iff its default type is "string" or "function", else throws InvalidDefaultType with that type; the comment is kept, and an empty default adds no clause |
| MysqlSchema.RenderAll | src/main/java/com/github/museadmin/infinite_state_machine/common/dal/Mysql.java:187-228 | succeeds iff every column's default type is valid, rendering each column in order; otherwise the exception names the first invalid column's type |
| MysqlSchema.CreateTableText | src/main/java/com/github/museadmin/infinite_state_machine/common/dal/Mysql.java:178-237 | the statement exists only when every default renders; with at least one column and valid defaults it never throws; it throws only StringIndexOutOfBounds(-1) or InvalidDefaultType |
| MysqlSchema.AppendColumn | src/main/java/com/github/museadmin/infinite_state_machine/common/dal/Mysql.java:188-227 | one forEach step: appends the column's line, or throws InvalidDefaultType for an invalid default type |
| MysqlSchema.CreateTableStatement | src/main/java/com/github/museadmin/infinite_state_machine/common/dal/Mysql.java:178-237 | the builder returns exactly the specified statement or exception |
| MysqlSchema.FirstInvalidColumn | src/main/java/com/github/museadmin/infinite_state_machine/common/dal/Mysql.java:211-213 | the loop's early exit throws the same exception as the whole statement |
| MysqlSchema.CreateTableShape | src/main/java/com/github/museadmin/infinite_state_machine/common/dal/Mysql.java:178-237 | valid defaults, at least one column and a comma-free final comment give "CREATE TABLE name (\n", each line in order, and the last separator reduced to " " |
| MysqlSchema.InvalidDefaultRejected | src/main/java/com/github/museadmin/infinite_state_machine/common/dal/Mysql.java:211-213 | the first column with an invalid default type decides the exception, whatever follows |
| MysqlStore.CurrentRunPhase | src/main/java/com/github/museadmin/infinite_state_machine/common/dal/Mysql.java:397-402 | queryRunPhase names a phase whose state is "1", or is "" and no phase is set |
| MysqlStore.RunPhasesCleared | src/main/java/com/github/museadmin/infinite_state_machine/common/dal/Mysql.java:375-380 | the first UPDATE sets exactly the five run phases to "0" and keeps all names |
| MysqlStore.PhaseSet | src/main/java/com/github/museadmin/infinite_state_machine/common/dal/Mysql.java:382-387 | the second UPDATE sets exactly the rows named p to "1" |
| MysqlStore.PhasesAfterUpdate | src/main/java/com/github/museadmin/infinite_state_machine/common/dal/Mysql.java:375-387 | the two UPDATE statements keep every row and every row's name |
| MysqlStore.PhaseAfterUpdateAt | src/main/java/com/github/museadmin/infinite_state_machine/common/dal/Mysql.java:375-387 | after both UPDATEs a row is set iff it is named p, and another run phase is "0" |
| MysqlStore.RunPhaseRoundTrip | src/main/java/com/github/museadmin/infinite_state_machine/common/dal/Mysql.java:372-402 | updateRunPhase(p) on a phase that has a row leaves exactly p set, and queryRunPhase then returns p |
| MysqlStore.RunPhaseClearsOthers | src/main/java/com/github/museadmin/infinite_state_machine/common/dal/Mysql.java:374-387 | every other run phase of the option group is "0" afterwards, and no row outside the group becomes set |
| MysqlStore.SoleSetPhase | src/main/java/com/github/museadmin/infinite_state_machine/common/dal/Mysql.java:397-402 | when every set row is named p and one exists, queryRunPhase returns p |
| MysqlStore.RunPhaseHistoryIndependent | src/main/java/com/github/museadmin/infinite_state_machine/common/dal/Mysql.java:372-391 | the last valid run phase set decides the table, whatever was set before |
| MysqlStore.ActiveIn | src/main/java/com/github/museadmin/infinite_state_machine/common/dal/Mysql.java:245-253 | active(a) iff a row of a is "1" and belongs to the current phase or to ALL |
| MysqlStore.WithActive | src/main/java/com/github/museadmin/infinite_state_machine/common/dal/Mysql.java:259-273 | activate/deactivate change only the rows of that action, only their flag |
| MysqlStore.WithPayload | src/main/java/com/github/museadmin/infinite_state_machine/common/dal/Mysql.java:279-293 | clearPayload/updatePayload change only the rows of that action, only their payload |
| MysqlStore.ActivateMakesActive | src/main/java/com/github/museadmin/infinite_state_machine/common/dal/Mysql.java:245-263 | an activated action with a row in the current phase or ALL is active |
| MysqlStore.DeactivateMakesInactive | src/main/java/com/github/museadmin/infinite_state_machine/common/dal/Mysql.java:245-273 | a deactivated action is inactive in every phase |
| MysqlStore.FlagLeavesOthers | src/main/java/com/github/museadmin/infinite_state_machine/common/dal/Mysql.java:245-273 | flagging one action leaves every other action's answer to active unchanged |
| MysqlStore.FlagLastWriteWins | src/main/java/com/github/museadmin/infinite_state_machine/common/dal/Mysql.java:259-273 | the last activate/deactivate wins; repeating one is idempotent |
| MysqlStore.PayloadLastWriteWins | src/main/java/com/github/museadmin/infinite_state_machine/common/dal/Mysql.java:279-293 | the last payload written wins; repeating a write is idempotent |
| MysqlStore.PayloadKeepsActivity | src/main/java/com/github/museadmin/infinite_state_machine/common/dal/Mysql.java:245-293 | payload writes never change any action's activity |
| MysqlStore.ActionsComplete | src/main/java/com/github/museadmin/infinite_state_machine/common/dal/Mysql.java:302-321 | the barrier holds iff no action whose name contains the marker is "1" |
| MysqlStore.ActivateHoldsBarrier | src/main/java/com/github/museadmin/infinite_state_machine/common/dal/Mysql.java:259-308 | activating an action whose name contains the marker makes the barrier report incomplete |
| MysqlStore.DeactivateReleasesBarrier | src/main/java/com/github/museadmin/infinite_state_machine/common/dal/Mysql.java:269-308 | deactivating the last pending action makes the barrier report complete |
| MysqlStore.PropertyValue | src/main/java/com/github/museadmin/infinite_state_machine/common/dal/Mysql.java:352-358 | queryProperty returns the value of a row with that name, or "" when there is none |
| MysqlStore.PropertyValueFirst | src/main/java/com/github/museadmin/infinite_state_machine/common/dal/Mysql.java:357 | with several rows of that name, the first row's value is returned |
| MysqlStore.WithValue | src/main/java/com/github/museadmin/infinite_state_machine/common/dal/Mysql.java:341-345 | updateProperty changes only the value of the rows of that name |
| MysqlStore.InsertThenQuery | src/main/java/com/github/museadmin/infinite_state_machine/common/dal/Mysql.java:330-358 | a newly inserted property reads back as inserted |
| MysqlStore.InsertDoesNotShadow | src/main/java/com/github/museadmin/infinite_state_machine/common/dal/Mysql.java:330-358 | inserting a duplicate name does not change what queryProperty reads |
| MysqlStore.UpdateThenQuery | src/main/java/com/github/museadmin/infinite_state_machine/common/dal/Mysql.java:341-358 | an updated existing property reads back as updated; an absent one still reads "" |
| MysqlStore.UpdateLeavesOthers | src/main/java/com/github/museadmin/infinite_state_machine/common/dal/Mysql.java:341-358 | updating one property leaves every other property's value unchanged |
| MysqlStore.WithState | src/main/java/com/github/museadmin/infinite_state_machine/common/dal/Mysql.java:410-424 | setState/unsetState change only the flag of the rows of that state |
| MysqlStore.StateLastWriteWins | src/main/java/com/github/museadmin/infinite_state_machine/common/dal/Mysql.java:410-424 | the last setState/unsetState of a name wins |
| MysqlStore.Unprocessed | src/main/java/com/github/museadmin/infinite_state_machine/common/dal/Mysql.java:462-466 | exactly the messages whose processed field is "0" are listed, each as many times as it is stored and no other |
| MysqlStore.UnprocessedAppend | src/main/java/com/github/museadmin/infinite_state_machine/common/dal/Mysql.java:462-466 | a new message is listed after all earlier ones when its processed field is "0", and not listed otherwise |
| MysqlStore.MarkedProcessed | src/main/java/com/github/museadmin/infinite_state_machine/common/dal/Mysql.java:472-476 | only the row with that id changes, and only its processed field, to "1" |
| MysqlStore.MarkIdempotent | src/main/java/com/github/museadmin/infinite_state_machine/common/dal/Mysql.java:472-476 | marking a message twice is the same as marking it once |
| MysqlStore.MarkTouchesOnlyThatMessage | src/main/java/com/github/museadmin/infinite_state_machine/common/dal/Mysql.java:472-476 | with unique generated keys, marking one message leaves every other row as it was |
| MysqlStore.InsertedIsListed | src/main/java/com/github/museadmin/infinite_state_machine/common/dal/Mysql.java:432-466 | a message inserted with processed "0" is listed as unprocessed |
| MysqlStore.MarkRemovesFromUnprocessed | src/main/java/com/github/museadmin/infinite_state_machine/common/dal/Mysql.java:462-476 | after marking id, no row with that id is listed, and every other unprocessed row still is |
| MysqlStore.DbName | src/main/java/com/github/museadmin/infinite_state_machine/common/dal/Mysql.java:47-62 | no dbMode throws NullPointer; OVERWRITE (any case) gives dbName, or NullPointer without it; UNIQUE gives dbName followed by epoch (absent ones print "null"); any other mode throws the unrecognised-dbMode RuntimeException |
| MysqlStore.ConnectionUrl | src/main/java/com/github/museadmin/infinite_state_machine/common/dal/Mysql.java:67-71 | the connection URL ends with the chosen database name |
| MysqlStore.DbModeCaseInsensitive | src/main/java/com/github/museadmin/infinite_state_machine/common/dal/Mysql.java:49 | dbMode is read without regard to letter case |
| MysqlStore.UniqueModeSeparatesRuns | src/main/java/com/github/museadmin/infinite_state_machine/common/dal/Mysql.java:53-56 | in UNIQUE mode, runs with different epochs get different databases |
| MysqlStore.OverwriteModeReusesName | src/main/java/com/github/museadmin/infinite_state_machine/common/dal/Mysql.java:50-52 | in OVERWRITE mode every run reuses the configured dbName, whatever the epoch |
| MysqlStore.Mysql.Opened | src/main/java/com/github/museadmin/infinite_state_machine/common/dal/Mysql.java:61-64 | a freshly dropped and re-created database: every table empty, keys start at 1 |
| MysqlStore.Mysql.Open | src/main/java/com/github/museadmin/infinite_state_machine/common/dal/Mysql.java:38-72 | the constructor succeeds iff a name can be chosen, else throws that exception; it stores the name back into the properties, points the URL at it, and starts with all five tables empty and message keys at 1 |
| MysqlStore.Mysql.UpdateRunPhase | src/main/java/com/github/museadmin/infinite_state_machine/common/dal/Mysql.java:372-391 | a run phase runs both UPDATEs; any other name throws InvalidRunPhase and leaves the table unchanged |
| MysqlStore.Mysql.QueryRunPhase | src/main/java/com/github/museadmin/infinite_state_machine/common/dal/Mysql.java:397-402 | returns the current run phase of the phases table |
| MysqlStore.Mysql.Active | src/main/java/com/github/museadmin/infinite_state_machine/common/dal/Mysql.java:245-253 | true iff a row of the action is "1" in the current run phase or ALL |
| MysqlStore.Mysql.Activate | src/main/java/com/github/museadmin/infinite_state_machine/common/dal/Mysql.java:259-263 | the actions table after the UPDATE to "1" |
| MysqlStore.Mysql.Deactivate | src/main/java/com/github/museadmin/infinite_state_machine/common/dal/Mysql.java:269-273 | the actions table after the UPDATE to "0" |
| MysqlStore.Mysql.ClearPayload | src/main/java/com/github/museadmin/infinite_state_machine/common/dal/Mysql.java:279-283 | the action's payload becomes "" |
| MysqlStore.Mysql.UpdatePayload | src/main/java/com/github/museadmin/infinite_state_machine/common/dal/Mysql.java:289-293 | the action's payload becomes the given one |
| MysqlStore.Mysql.AfterActionsComplete | src/main/java/com/github/museadmin/infinite_state_machine/common/dal/Mysql.java:302-308 | true iff no active action's name contains "After" |
| MysqlStore.Mysql.BeforeActionsComplete | src/main/java/com/github/museadmin/infinite_state_machine/common/dal/Mysql.java:315-321 | true iff no active action's name contains "Before" |
| MysqlStore.Mysql.InsertProperty | src/main/java/com/github/museadmin/infinite_state_machine/common/dal/Mysql.java:330-334 | one row (name, value) is appended |
| MysqlStore.Mysql.UpdateProperty | src/main/java/com/github/museadmin/infinite_state_machine/common/dal/Mysql.java:341-345 | the properties table after the UPDATE |
| MysqlStore.Mysql.QueryProperty | src/main/java/com/github/museadmin/infinite_state_machine/common/dal/Mysql.java:352-358 | returns PropertyValue of the table: the first row's value with that name, or "" when none exists |
| MysqlStore.Mysql.SetState | src/main/java/com/github/museadmin/infinite_state_machine/common/dal/Mysql.java:410-414 | the state's flag becomes "1" |
| MysqlStore.Mysql.UnsetState | src/main/java/com/github/museadmin/infinite_state_machine/common/dal/Mysql.java:420-424 | the state's flag becomes "0" |
| MysqlStore.Mysql.InsertMessage | src/main/java/com/github/museadmin/infinite_state_machine/common/dal/Mysql.java:432-456 | one row with the eight given fields is appended under the next key, and keys stay increasing |
| MysqlStore.Mysql.GetUnprocessedMessages | src/main/java/com/github/museadmin/infinite_state_machine/common/dal/Mysql.java:462-466 | exactly the rows whose processed field is "0", each as often as stored, in table order |
| MysqlStore.Mysql.MarkMessageProcessed | src/main/java/com/github/museadmin/infinite_state_machine/common/dal/Mysql.java:472-476 | the messages table after the UPDATE of that id; keys stay increasing |
| Sqlite3.InsertText | src/main/java/com/github/museadmin/infinite_state_machine/common/dal/Sqlite3.java:91-124 | the INSERT text exists iff there is a value or the table or column text holds a comma; otherwise StringIndexOutOfBounds(-1) |
| Sqlite3.CloseAndDeleteLastComma | src/main/java/com/github/museadmin/infinite_state_machine/common/dal/Sqlite3.java:97-103 | appends ");" and applies the delete-last-comma idiom |
| Sqlite3.InsertStatement | src/main/java/com/github/museadmin/infinite_state_machine/common/dal/Sqlite3.java:92-103 | the shared INSERT builder returns exactly the specified text or exception |
| Sqlite3.CreateActionStatement | src/main/java/com/github/museadmin/infinite_state_machine/common/dal/Sqlite3.java:91-104 | the INSERT INTO state_machine statement for the values |
| Sqlite3.CreateStateStatement | src/main/java/com/github/museadmin/infinite_state_machine/common/dal/Sqlite3.java:111-124 | the INSERT INTO state statement for the values |
| Sqlite3.InsertShape | src/main/java/com/github/museadmin/infinite_state_machine/common/dal/Sqlite3.java:91-124 | with at least one value: the prefix, the values quoted and comma-separated in order, then ");" |
| Sqlite3.EmptyInsert | src/main/java/com/github/museadmin/infinite_state_machine/common/dal/Sqlite3.java:94-101 | with no values, the column list's last comma is the one deleted and the values list stays empty |
| Sqlite3.ActionColumnsSplit | src/main/java/com/github/museadmin/infinite_state_machine/common/dal/Sqlite3.java:94 | the state_machine column list's last comma is the one before "activate" |
| Sqlite3.StateColumnsSplit | src/main/java/com/github/museadmin/infinite_state_machine/common/dal/Sqlite3.java:114 | the state column list's last comma is the one before "note" |
| Sqlite3.EmptyActionStatement | src/main/java/com/github/museadmin/infinite_state_machine/common/dal/Sqlite3.java:91-103 | an empty array gives "INSERT INTO state_machine (action, phase, payload activate) values ();" |
| Sqlite3.EmptyStateStatement | src/main/java/com/github/museadmin/infinite_state_machine/common/dal/Sqlite3.java:111-123 | an empty array gives "INSERT INTO state (status, state_flag note) values ();" |
| Sqlite3.DefaultClause | src/main/java/com/github/museadmin/infinite_state_machine/common/dal/Sqlite3.java:150-153 | the clause is the MySQL builder's clause for a "string" default: nothing for an empty default, else a quoted literal |
| Sqlite3.Render | src/main/java/com/github/museadmin/infinite_state_machine/common/dal/Sqlite3.java:141-166 | a column renders exactly as the MySQL builder renders it with a "string" default |
| Sqlite3.RenderAll | src/main/java/com/github/museadmin/infinite_state_machine/common/dal/Sqlite3.java:140-167 | line i is column i rendered, for every column |
| Sqlite3.CreateTableText | src/main/java/com/github/museadmin/infinite_state_machine/common/dal/Sqlite3.java:131-176 | a table with at least one column never throws; the only exception is StringIndexOutOfBounds(-1) |
| Sqlite3.AppendColumn | src/main/java/com/github/museadmin/infinite_state_machine/common/dal/Sqlite3.java:141-166 | one forEach step appends the column's line, with a non-empty default always quoted |
| Sqlite3.CreateTableStatement | src/main/java/com/github/museadmin/infinite_state_machine/common/dal/Sqlite3.java:131-176 | the builder returns exactly the specified statement or exception |
| Sqlite3.CreateTableShape | src/main/java/com/github/museadmin/infinite_state_machine/common/dal/Sqlite3.java:131-176 | a table of at least one column never throws; with a comma-free final comment each line comes out in order and only the last separator loses its comma |
| JsonToSqlEtl.RemoveTrailingComma | src/main/java/com/github/museadmin/infinite_state_machine/common/utils/JsonToSqlEtl.java:81-83 | in place: the last comma is deleted, or StringIndexOutOfBounds(-1) is thrown and the text is unchanged |
| JsonToSqlEtl.Beginning | src/main/java/com/github/museadmin/infinite_state_machine/common/utils/JsonToSqlEtl.java:50-59 | with at least one column it never throws; it ends in ") values ("; its only exception is StringIndexOutOfBounds(-1) |
| JsonToSqlEtl.BeginningWithColumns | src/main/java/com/github/museadmin/infinite_state_machine/common/utils/JsonToSqlEtl.java:50-59 | with columns: "INSERT INTO table (", the columns quoted and comma-separated, ") values (" |
| JsonToSqlEtl.BeginningWithoutColumns | src/main/java/com/github/museadmin/infinite_state_machine/common/utils/JsonToSqlEtl.java:50-59 | with no columns the beginning succeeds iff the table name holds a comma, else StringIndexOutOfBounds(-1) |
| JsonToSqlEtl.InsertOpenComma | src/main/java/com/github/museadmin/infinite_state_machine/common/utils/JsonToSqlEtl.java:52 | the text around the table name holds no comma of its own |
| JsonToSqlEtl.Middle | src/main/java/com/github/museadmin/infinite_state_machine/common/utils/JsonToSqlEtl.java:67-72 | a row's middle succeeds iff the row is non-empty and is then its values quoted and comma-separated; an empty row throws StringIndexOutOfBounds(-1) |
| JsonToSqlEtl.RowsText | src/main/java/com/github/museadmin/infinite_state_machine/common/utils/JsonToSqlEtl.java:65-76 | succeeds iff no row is empty, with one statement per row; otherwise StringIndexOutOfBounds(-1) |
| JsonToSqlEtl.RowsShape | src/main/java/com/github/museadmin/infinite_state_machine/common/utils/JsonToSqlEtl.java:65-76 | statement i is the shared beginning, row i's joined values and ");" |
| JsonToSqlEtl.InsertStatementsText | src/main/java/com/github/museadmin/infinite_state_machine/common/utils/JsonToSqlEtl.java:46-79 | an item yields statements iff its beginning does and no row is empty, one per row; otherwise StringIndexOutOfBounds(-1) |
| JsonToSqlEtl.ParseInsertStatements | src/main/java/com/github/museadmin/infinite_state_machine/common/utils/JsonToSqlEtl.java:46-79 | the method returns exactly the specified statements or exception |
| JsonToSqlEtl.BuildBeginning | src/main/java/com/github/museadmin/infinite_state_machine/common/utils/JsonToSqlEtl.java:50-59 | the front-end loop yields the specified beginning |
| JsonToSqlEtl.BuildRows | src/main/java/com/github/museadmin/infinite_state_machine/common/utils/JsonToSqlEtl.java:65-76 | the rows loop yields the specified statements or the first empty row's exception |
| JsonToSqlEtl.BuildMiddle | src/main/java/com/github/museadmin/infinite_state_machine/common/utils/JsonToSqlEtl.java:67-72 | the values loop and removeTrailingComma yield the specified middle |
| JsonToSqlEtl.InsertShape | src/main/java/com/github/museadmin/infinite_state_machine/common/utils/JsonToSqlEtl.java:46-79 | with columns and no empty row: one statement per row, each "INSERT INTO t (cols) values (vals);" |
| JsonToSqlEtl.Step | src/main/java/com/github/museadmin/infinite_state_machine/common/utils/JsonToSqlEtl.java:26-35 | an insert item succeeds iff the list is non-null and the item builds, and then only extends the list; its own exception wins over the NullPointer of adding to null; select, update and delete give null; other kinds change nothing; the result is null iff the item nulls or the list was null |
| JsonToSqlEtl.ParseSqlText | src/main/java/com/github/museadmin/infinite_state_machine/common/utils/JsonToSqlEtl.java:20-39 | the file throws only NullPointer or StringIndexOutOfBounds(-1) |
| JsonToSqlEtl.ParseSqlFromFile | src/main/java/com/github/museadmin/infinite_state_machine/common/utils/JsonToSqlEtl.java:20-39 | the loop returns exactly the specified list, null or exception |
| JsonToSqlEtl.ThrowPersists | src/main/java/com/github/museadmin/infinite_state_machine/common/utils/JsonToSqlEtl.java:25-36 | once a prefix of the items throws, the whole file throws that same exception |
| JsonToSqlEtl.NullIffNullingItem | src/main/java/com/github/museadmin/infinite_state_machine/common/utils/JsonToSqlEtl.java:29-35 | a parsed file is null iff some item is a select, update or delete |
| JsonToSqlEtl.NoInsertAfterNulling | src/main/java/com/github/museadmin/infinite_state_machine/common/utils/JsonToSqlEtl.java:27-35 | a file that parses has no insert after a nulling item, because that insert would add to null |
| JsonToSqlEtl.StatementCount | src/main/java/com/github/museadmin/infinite_state_machine/common/utils/JsonToSqlEtl.java:25-36 | a non-null result has one statement per value row of the insert items |
| JsonToSqlEtl.AllInsertsConcatenate | src/main/java/com/github/museadmin/infinite_state_machine/common/utils/JsonToSqlEtl.java:25-28 | when every item is an insert, the result is each item's statements concatenated in item order |
| JsonToSqlEtl.InsertStep | src/main/java/com/github/museadmin/infinite_state_machine/common/utils/JsonToSqlEtl.java:27-28 | an insert after a non-null list appends its statements at the end |
| JsonToSqlEtl.UnrecognisedSkipped | src/main/java/com/github/museadmin/infinite_state_machine/common/utils/JsonToSqlEtl.java:27-35 | items of any other CRUD kind are skipped: dropping them changes nothing |

## Left out

- JDBC connections, executing statements and queries, `createTable`, `insertState`/`insertAction`, `dropDatabase` and `createDatabase` are not modelled. They only send the built text to the server. `MysqlStore.Mysql.Opened` starts with every table empty, as a re-created database does.
- SQL quoting and injection are not modelled. Values are spliced in as the code splices them, and the store functions act as if each statement parsed as intended.
- MySQL collation is not modelled: `=` is exact string equality and `LIKE '%x%'` is a plain substring test.
- Row order is not specified by SQL. The model takes the table order as the order a SELECT returns, which fixes the "first row" of `queryRunPhase` and `queryProperty`.
- JavaLang.ToUpperCase: only the ASCII letters a-z are upper-cased. Locale rules and non-ASCII mappings are not modelled.
- MysqlStore.Mysql.InsertMessage: the messages table is assumed to generate keys from 1 upward. The table's schema file is not part of this model.
- MysqlStore.Mysql.Open: the chosen name is written only into the new object's own copy of the properties. In the code the property cache is shared, so the caller's cache is rewritten as well, and a second construction from it in UNIQUE mode would append the epoch a second time. That write-back into the caller's cache is not modelled.
- MysqlStore.Mysql.InsertProperty: appends a row even when the property name is already present. The properties table's schema file is not part of this model, so a unique key that would make the second insert fail is not modelled. QueryProperty then returns the value of the first such row.
- JSON values are modelled as their `toString()` texts. JSONException for a missing key or a value of the wrong type is not modelled.
- The `dbName` field of the MySQL object is never assigned in the code: a local variable shadows it. It is not modelled.
- `System.exit` paths inside the JDBC helpers, and any concurrency between store calls, are not modelled.
- DataAccessLayer, ActionPack, PropertyCache and the interfaces are not part of this model. The property cache is a `map<string, string>` here.
