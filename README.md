# ActiveRecord model, in Dafny

This project models the `Model` base class of the FuelPHP ActiveRecord
package. A subclass declares:

- a table, its columns and a primary key;
- its `belongs_to`, `has_many` and `has_one` associations;
- optional lifecycle hooks.

Each instance of the class keeps:

- the column values it holds (`attributes`);
- its association objects (`associations`);
- three flags: modified, new record and frozen.

The model covers:

- property reads and writes through the magic accessors (`__get`, `__set`), including the `<name>_ids` accessors of has-many associations;
- construction from an array of values;
- routing of association method calls (`__call`);
- `save()`, with its belongs-to and has-one/has-many cascades, the INSERT or UPDATE, and the hooks around them;
- `destroy()` and `update_attributes()`;
- the static finder:
  - `generate_find_query`, which builds the SELECT statement: id filters, conditions, whitelisted `limit`/`order`/`group`, numeric `offset`, and eager loading through `include` with its column aliases;
  - `convert_conditions_to_where`, in its positional, named and associative forms;
  - `transform_row`;
  - `find`, which merges joined rows into one record per distinct base row.

The files are:

- `values.dfy` — PHP values, association objects, schema declarations, errors.
- `strings.dfy` — the PHP string and PCRE helpers the class relies on: `implode`, `strpos`, single replacement with `preg_replace`, the `_ids` pattern, the whitelist pattern, `is_numeric` and `preg_split`.
- `records.dfy` — an instance's state as a value, the specification of every state change, and the properties proved about them.
- `model.dfy` — the class `ActiveRecord.Model`:
  - the same fields, updated in place by methods;
  - a `log` of everything the instance does outside itself: hooks run, association calls, database writes.
  - Each method is proved equal to its specification in `records.dfy`.
- `conditions.dfy` — `convert_conditions_to_where`.
- `query.dfy` — `generate_find_query`.
- `finder.dfy` — `transform_row` and `find`.

The code behind some calls is not part of this model; those calls enter as parameters:

- inflection: `Inflector.pluralize`, `Inflector.tableize`;
- database quoting: `quote`;
- the key an INSERT returns: `generatedId`;
- the answers of `needs_saving()`: `needs`, the set of association names that answer true;
- the rows a query returns: `db`.

## Model

All source paths are under `fuel/packages/activerecord/classes/activerecord/`.

| member | source | states |
|---|---|---|
| Strings.FirstIndexOf | fuel/packages/activerecord/classes/activerecord/model.php:151 | the position found is an occurrence with no earlier one; none is found exactly when the pattern does not occur |
| Strings.IdsPrefix | fuel/packages/activerecord/classes/activerecord/model.php:89 | a stem taken from `/^(.+?)_ids$/` is non-empty and holds no newline |
| Strings.IdsPrefixRoundTrip | fuel/packages/activerecord/classes/activerecord/model.php:89 | a stem is recovered from `stem_ids` (with or without one final newline), and only those two names yield that stem |
| Strings.NatToStringInjective | fuel/packages/activerecord/classes/activerecord/model.php:487 | distinct numbers print as distinct digit strings |
| Strings.SplitPieces | fuel/packages/activerecord/classes/activerecord/model.php:469 | the `include` pieces hold no separator, and only the first and the last piece can be empty |
| Records.ReadPriority | fuel/packages/activerecord/classes/activerecord/model.php:75-98 | a read tries stored attributes, then associations, then declared columns (null), then a has-many `_ids` accessor; each outcome happens exactly under its condition, and the read fails exactly when none applies |
| Records.ColumnRead | fuel/packages/activerecord/classes/activerecord/model.php:77-88 | on a consistent instance a declared column reads as its stored value, or null when never set |
| Records.WriteThenRead | fuel/packages/activerecord/classes/activerecord/model.php:111-114 | writing a column of a live instance stores the value, marks the instance modified, changes nothing else, and the value reads back |
| Records.FrozenRefusesWrites | fuel/packages/activerecord/classes/activerecord/model.php:102-103 | a frozen instance refuses every write with ObjectFrozen and keeps its state |
| Records.UnknownNameRefused | fuel/packages/activerecord/classes/activerecord/model.php:126-135 | a name that is no column, association or has-many `_ids` accessor is refused with AttributeNotFound and the state is kept |
| Records.WriteKeepsConsistent | fuel/packages/activerecord/classes/activerecord/model.php:100-136 | every write keeps attributes under columns, associations off columns, the association order duplicate-free, and leaves the frozen and new-record flags alone |
| Records.WriteAllStop | fuel/packages/activerecord/classes/activerecord/model.php:66-69 | once one write of a sequence is refused, the later pairs are not written |
| Records.WriteAllColumns | fuel/packages/activerecord/classes/activerecord/model.php:64-72 | writing column pairs to a live instance merges them into the attributes, a later pair winning, and marks it modified when any pair was written |
| Records.WriteAllKeepsConsistent | fuel/packages/activerecord/classes/activerecord/model.php:66-69 | a sequence of writes keeps the instance consistent and leaves the frozen and new-record flags alone |
| Records.RegistrationsSucceed | fuel/packages/activerecord/classes/activerecord/model.php:42-62 | assigning association objects to a live instance never fails and leaves it live |
| Records.RegisteredAttributes | fuel/packages/activerecord/classes/activerecord/model.php:111-120 | an association declared under a column name is stored as that column's value, and no other attribute appears |
| Records.ConstructFromRow | fuel/packages/activerecord/classes/activerecord/model.php:39-73 | constructing from a row of column values succeeds; the instance is consistent and live, its flags are those passed, and it holds exactly the row's values plus any association declared under a column name |
| Records.MethodOperation | fuel/packages/activerecord/classes/activerecord/model.php:160 | the operation is what follows the first `<assoc>_` in the method name; it fails exactly when `<assoc>_` does not occur |
| Records.LongestPrefixUnique | fuel/packages/activerecord/classes/activerecord/model.php:148-156 | the longest association name that begins the method name is unique |
| Records.OperationAfterPrefix | fuel/packages/activerecord/classes/activerecord/model.php:160 | when the method name begins with `<assoc>_`, the operation is the rest of the name |
| Records.Filter | fuel/packages/activerecord/classes/activerecord/model.php:237-242 | the columns written are exactly the declared columns other than the primary key |
| Records.OwnersStop | fuel/packages/activerecord/classes/activerecord/model.php:217-229 | once the belongs-to pass raises, later associations are not visited |
| Records.DependentsStop | fuel/packages/activerecord/classes/activerecord/model.php:295-308 | once the has-one/has-many pass raises, later associations are not visited |
| Records.DependentsLive | fuel/packages/activerecord/classes/activerecord/model.php:295-308 | the has-one/has-many pass of a live instance never raises |
| Records.CascadesWriteNothing | fuel/packages/activerecord/classes/activerecord/model.php:217-229 | neither cascade writes to this record's table; the belongs-to pass changes only the instance |
| Records.OwnerWrites | fuel/packages/activerecord/classes/activerecord/model.php:217-229 | the pass writes no key exactly when no association it walks is a belongs-to association that needs saving |
| Records.OwnersAsWrites | fuel/packages/activerecord/classes/activerecord/model.php:217-229 | on a live instance the belongs-to pass ends, in state and exception, exactly as `__set` of each needed owner's key into its foreign key, in order |
| Records.OwnersFrozen | fuel/packages/activerecord/classes/activerecord/model.php:217-229 | on a frozen instance the belongs-to pass changes nothing and raises exactly when some owner needs saving |
| Records.OwnersKeyColumns | fuel/packages/activerecord/classes/activerecord/model.php:217-229 | when the foreign keys are columns, the pass on a live instance succeeds, merges the owners' keys into the attributes and sets the modified flag exactly when it wrote one |
| Records.OwnersKeep | fuel/packages/activerecord/classes/activerecord/model.php:217-229 | the belongs-to pass keeps the frozen and new-record flags and never clears the modified flag |
| Records.SaveWrites | fuel/packages/activerecord/classes/activerecord/model.php:210-313 | save writes to this record's table only in its INSERT-or-UPDATE step, run on the state the belongs-to pass left, and ends in that step's state; a pass that raises stops it before any write |
| Records.UpdateOutcome | fuel/packages/activerecord/classes/activerecord/model.php:264-294 | the UPDATE branch issues exactly one write, keyed by the primary key, and only clears the modified flag |
| Records.SaveIsPersist | fuel/packages/activerecord/classes/activerecord/model.php:210-313 | on a live instance, save ends in the state, exception and database writes of its INSERT-or-UPDATE step, run on the state the belongs-to pass left; if that pass raises, save ends there without any write |
| Records.WriteKeepsFrozen | fuel/packages/activerecord/classes/activerecord/model.php:230-294 | the INSERT-or-UPDATE step never freezes or thaws an instance |
| Records.SaveNewRecord | fuel/packages/activerecord/classes/activerecord/model.php:217-263 | saving a live new record first writes each needed owner's key into its foreign key, then issues exactly one INSERT of the non-key values including those keys; the record then holds the keys and the generated key, is stored and unmodified, and keeps its associations |
| Records.SaveUnmodified | fuel/packages/activerecord/classes/activerecord/model.php:217-294 | saving a stored, unmodified record that no belongs-to association needs to save, or a frozen one, writes nothing and leaves it unchanged |
| Records.SaveModifiedRecord | fuel/packages/activerecord/classes/activerecord/model.php:217-294 | saving a live stored record that is modified, or that the belongs-to pass modifies, issues exactly one UPDATE of the non-key values, owner keys included, keyed by its primary key; the record then holds those keys and is unmodified |
| Records.SaveTwice | fuel/packages/activerecord/classes/activerecord/model.php:210-313 | after a save that succeeds, a second save in which no belongs-to association needs saving writes nothing to the database |
| Records.DestroyAssociations | fuel/packages/activerecord/classes/activerecord/model.php:321-324 | one destroy call per association, in registration order |
| Records.FrozenAfterDestroy | fuel/packages/activerecord/classes/activerecord/model.php:331 | after destroy every write is refused with ObjectFrozen, and reads are as before |
| Records.DestroyDeletesOnce | fuel/packages/activerecord/classes/activerecord/model.php:315-338 | destroy issues exactly one database write: a DELETE of the row with this primary key value |
| Records.UpdateAttributesColumns | fuel/packages/activerecord/classes/activerecord/model.php:200-229 | updating columns of a live stored record merges them in, then the owners' keys, issues exactly one UPDATE with the merged values, and leaves the record unmodified |
| ActiveRecord.Model.constructor | fuel/packages/activerecord/classes/activerecord/model.php:39 | a new instance is blank and consistent: no attributes or associations, a new record, neither modified nor frozen |
| ActiveRecord.Model.Set | fuel/packages/activerecord/classes/activerecord/model.php:100-136 | `__set` changes the fields exactly as the write specification does, and keeps the instance valid |
| ActiveRecord.Model.WriteEach | fuel/packages/activerecord/classes/activerecord/model.php:66-69 | writes the pairs in order, stops at the first refusal, and keeps the instance valid |
| ActiveRecord.Model.Populate | fuel/packages/activerecord/classes/activerecord/model.php:39-73 | the constructor body gives the state and the error of the construction specification |
| ActiveRecord.Model.Call | fuel/packages/activerecord/classes/activerecord/model.php:145-167 | the loop's outcome is `CallSpec` of the association names, the method name and the arguments |
| Records.CallOutcomes | fuel/packages/activerecord/classes/activerecord/model.php:145-167 | the call succeeds exactly when some association name is the longest to begin the method name and `<assoc>_` occurs in it; it then routes to that association with the operation after `<assoc>_` and the arguments unchanged; MethodOrAssociationNotFound exactly when no association name begins it; no other error arises |
| Records.CallSpecOf | fuel/packages/activerecord/classes/activerecord/model.php:148-166 | with the longest association name known, the call is the operation named after it, or MissingOperation |
| ActiveRecord.Model.SetModified | fuel/packages/activerecord/classes/activerecord/model.php:195-198 | only the modified flag changes |
| ActiveRecord.Model.Save | fuel/packages/activerecord/classes/activerecord/model.php:210-313 | the new state, the events and the exception are those of the save specification, foreign-key writes of the belongs-to pass included; the instance stays valid |
| ActiveRecord.Model.Fire | fuel/packages/activerecord/classes/activerecord/model.php:212-215 | a hook runs exactly when the class defines it |
| ActiveRecord.Model.CascadeOwners | fuel/packages/activerecord/classes/activerecord/model.php:217-229 | runs the belongs-to pass of the specification: each owner that needs saving is saved, then reassigned, which writes its key into this record through `__set`; it stops at the first refusal; the instance stays valid |
| ActiveRecord.Model.VisitOwner | fuel/packages/activerecord/classes/activerecord/model.php:219-229 | one name of the belongs-to pass, as the specification's step: the owner's save event, the reassign, and the `__set` of its key |
| ActiveRecord.Model.Persist | fuel/packages/activerecord/classes/activerecord/model.php:230-294 | INSERT for a new record, UPDATE for a modified one, nothing otherwise, as the specification says |
| ActiveRecord.Model.InsertRow | fuel/packages/activerecord/classes/activerecord/model.php:230-263 | the INSERT branch gives the specification's state, events and exception |
| ActiveRecord.Model.UpdateRow | fuel/packages/activerecord/classes/activerecord/model.php:264-294 | the UPDATE branch gives the specification's state and events |
| ActiveRecord.Model.CascadeDependents | fuel/packages/activerecord/classes/activerecord/model.php:295-308 | each has-one association that needs saving is reassigned, then saved; each has-many one saves as needed; a frozen instance raises at the first has-one |
| ActiveRecord.Model.InsertValuesOf | fuel/packages/activerecord/classes/activerecord/model.php:237-252 | the loop collects the INSERT values the specification names |
| ActiveRecord.Model.UpdateValuesOf | fuel/packages/activerecord/classes/activerecord/model.php:271-280 | the loop collects the UPDATE assignments the specification names |
| ActiveRecord.Model.Destroy | fuel/packages/activerecord/classes/activerecord/model.php:315-338 | the events of destroy happen in order; the instance is frozen and nothing else changes; the call returns true |
| ActiveRecord.Model.LogDestroy | fuel/packages/activerecord/classes/activerecord/model.php:317-336 | the before hook, the association pass, the DELETE and the after hook, in this order |
| ActiveRecord.Model.DestroyCascade | fuel/packages/activerecord/classes/activerecord/model.php:321-324 | each association's destroy is called once, in registration order |
| ActiveRecord.Model.UpdateAttributes | fuel/packages/activerecord/classes/activerecord/model.php:200-208 | writes each pair, stops at a refused one, then saves |
| Conditions.ShapeOfList | fuel/packages/activerecord/classes/activerecord/model.php:517-532 | a 0-based list of consecutive keys ending in a scalar is a positional template; an array whose first key is not 0 (or which is empty) is associative, and only then |
| Conditions.SubstituteNoMark | fuel/packages/activerecord/classes/activerecord/model.php:522-526 | a template without `?` is left alone by the substitution |
| Conditions.SubstituteIsFill | fuel/packages/activerecord/classes/activerecord/model.php:522-526 | when no quoted value holds a `?`, the repeated first-match replacement fills the template's marks left to right (an independent reference definition) |
| Conditions.Renumber | fuel/packages/activerecord/classes/activerecord/model.php:534 | `array_shift` renumbers the integer keys that remain from 0, in order, and keeps string keys and all values |
| Conditions.SubstituteNamedUnused | fuel/packages/activerecord/classes/activerecord/model.php:540-544 | a template that names none of the bindings comes back unchanged |
| Conditions.SubstituteNamedStep | fuel/packages/activerecord/classes/activerecord/model.php:540-544 | the first binding fills the first `:key` mark naming it when no `:` comes before that mark, and the other bindings then work on the filled text |
| Conditions.Clauses | fuel/packages/activerecord/classes/activerecord/model.php:552-562 | one column test per entry, in order |
| Conditions.WherePositional | fuel/packages/activerecord/classes/activerecord/model.php:517-527 | a positional template, bracketed, has its marks filled with the quoted values in order |
| Conditions.WhereSingleColumn | fuel/packages/activerecord/classes/activerecord/model.php:550-563 | a single column => value pair reads `` ( `col` = quoted ) `` |
| Conditions.WhereEmpty | fuel/packages/activerecord/classes/activerecord/model.php:550-563 | an empty array reads as empty brackets |
| Conditions.ConvertConditionsToWhere | fuel/packages/activerecord/classes/activerecord/model.php:506-566 | the fragment built step by step is the WHERE text the conditions stand for |
| Conditions.PositionalWhere | fuel/packages/activerecord/classes/activerecord/model.php:521-527 | the positional branch's loop yields the specified fragment |
| Conditions.NamedWhere | fuel/packages/activerecord/classes/activerecord/model.php:534-545 | the named branch's loop yields the specified fragment |
| Conditions.AssociativeWhere | fuel/packages/activerecord/classes/activerecord/model.php:550-563 | the associative branch's loop yields the specified fragment |
| Query.Sanitize | fuel/packages/activerecord/classes/activerecord/model.php:432-438 | `limit`, `order` and `group` survive exactly when present and whitelisted, otherwise become empty |
| Query.SanitizeOffset | fuel/packages/activerecord/classes/activerecord/model.php:439-440 | `offset` survives exactly when present and numeric, otherwise becomes empty |
| Query.AliasInjective | fuel/packages/activerecord/classes/activerecord/model.php:487-489 | distinct column positions get distinct `t<i>_r<j>` aliases |
| Query.TableSelects | fuel/packages/activerecord/classes/activerecord/model.php:485-487 | one select expression per column of a table, under its alias |
| Query.TableLookup | fuel/packages/activerecord/classes/activerecord/model.php:485-489 | a table's aliases map to exactly its own table and column, and to nothing else |
| Query.LookupOf | fuel/packages/activerecord/classes/activerecord/model.php:482-491 | `column_lookup` maps every alias back to exactly the table and column it selects, and holds no other entry |
| Query.Existing | fuel/packages/activerecord/classes/activerecord/model.php:471-474 | the names kept are exactly the included names that are associations |
| Query.ExistingAppend | fuel/packages/activerecord/classes/activerecord/model.php:471-479 | the names are visited in the order given: the names kept from a concatenation are those of its halves, one after the other |
| Query.Included | fuel/packages/activerecord/classes/activerecord/model.php:471-479 | at most one join per name in `include` |
| Query.IncludedExisting | fuel/packages/activerecord/classes/activerecord/model.php:471-479 | one join per existing association named, in the order named, each that association's join |
| Query.WhenTruthy | fuel/packages/activerecord/classes/activerecord/model.php:456-459 | a value is kept exactly when PHP reads it as true |
| Query.Candidates | fuel/packages/activerecord/classes/activerecord/model.php:496-502 | the eight clauses in statement order |
| Query.KeepOrdered | fuel/packages/activerecord/classes/activerecord/model.php:496-502 | the clauses kept stay in statement order |
| Query.KeepMembers | fuel/packages/activerecord/classes/activerecord/model.php:496-502 | a clause is kept exactly when its test holds |
| Query.ClauseOrder | fuel/packages/activerecord/classes/activerecord/model.php:496-502 | every statement begins with SELECT and FROM, and its clauses come in the fixed order |
| Query.ClausePresence | fuel/packages/activerecord/classes/activerecord/model.php:497-502 | GROUP BY, ORDER BY, LIMIT and OFFSET appear exactly when their text is truthy, WHERE exactly when there is one, each with that text |
| Query.ClausesSanitized | fuel/packages/activerecord/classes/activerecord/model.php:432-459 | every GROUP BY, ORDER BY and LIMIT text is a whitelisted option, and every OFFSET a numeric option (`'first'` forces LIMIT 1); every truthy option that passes its check does appear |
| Query.WhereCombines | fuel/packages/activerecord/classes/activerecord/model.php:443-454 | the WHERE text is the id filter AND the conditions, or whichever of them exists; there is none exactly for `'all'` or `'first'` without conditions |
| Query.RenderPrefix | fuel/packages/activerecord/classes/activerecord/model.php:496-502 | appending clauses only extends the statement |
| Query.QueryBegins | fuel/packages/activerecord/classes/activerecord/model.php:496 | every statement begins `SELECT <select> FROM <table>` |
| Query.BarePlan | fuel/packages/activerecord/classes/activerecord/model.php:442-461 | without options the plan selects `*` with no joins, group, order or offset, the id filter as WHERE, and LIMIT 1 only for `'first'` |
| Query.RenderPlain | fuel/packages/activerecord/classes/activerecord/model.php:496-502 | a plan without joins, group, order or offset renders SELECT, FROM, then an optional WHERE and an optional LIMIT |
| Query.RenderTwoOptional | fuel/packages/activerecord/classes/activerecord/model.php:496-502 | with only WHERE and LIMIT optional, the statement is the head followed by whichever of them is present |
| Query.RenderWhereOnly | fuel/packages/activerecord/classes/activerecord/model.php:496-498 | a plain plan with only a WHERE renders `SELECT * FROM <table> WHERE <w>` |
| Query.BareAll | fuel/packages/activerecord/classes/activerecord/model.php:442-502 | `find('all')` without options runs `SELECT * FROM <table>` |
| Query.BareFirst | fuel/packages/activerecord/classes/activerecord/model.php:445-446 | `find('first')` without options runs `SELECT * FROM <table> LIMIT 1` |
| Query.BareOne | fuel/packages/activerecord/classes/activerecord/model.php:447-448 | `find(id)` without options runs `SELECT * FROM <table> WHERE <table>.<key> = <quoted id>` |
| Query.QuoteIds | fuel/packages/activerecord/classes/activerecord/model.php:420-426 | the loop quotes every id in order |
| Query.IncludeJoins | fuel/packages/activerecord/classes/activerecord/model.php:471-479 | the loop collects the join fragments and the tables of the named associations that exist, in order |
| Query.SelectTable | fuel/packages/activerecord/classes/activerecord/model.php:484-490 | the inner loop gives a table's select expressions and lookup entries |
| Query.SelectColumns | fuel/packages/activerecord/classes/activerecord/model.php:480-492 | the nested loops give every select expression and the whole alias lookup |
| Query.RenderAppended | fuel/packages/activerecord/classes/activerecord/model.php:496-502 | appending each of the eight candidate clauses in turn, when present, gives the rendered statement |
| Query.Assemble | fuel/packages/activerecord/classes/activerecord/model.php:496-502 | the statement built step by step is the rendering of the plan's clauses |
| Query.AssembleHead | fuel/packages/activerecord/classes/activerecord/model.php:496-498 | SELECT, FROM, the joins and the WHERE, as specified |
| Query.AssembleTail | fuel/packages/activerecord/classes/activerecord/model.php:499-502 | GROUP BY, ORDER BY, LIMIT and OFFSET appended as specified |
| Query.FindWhere | fuel/packages/activerecord/classes/activerecord/model.php:443-454 | the WHERE text of the specification, and LIMIT 1 exactly for `'first'` |
| Query.LimitOffset | fuel/packages/activerecord/classes/activerecord/model.php:456-459 | LIMIT is 1 for `'first'`, otherwise the sanitised limit when truthy; OFFSET is the sanitised offset when truthy |
| Query.Include | fuel/packages/activerecord/classes/activerecord/model.php:465-493 | eager loading gives the joins, the base table first and then the joined tables, the select list and the alias lookup |
| Query.FindSelect | fuel/packages/activerecord/classes/activerecord/model.php:460-493 | the select list, the joins, the tables and the lookup of the specification |
| Query.GenerateFindQuery | fuel/packages/activerecord/classes/activerecord/model.php:413-504 | the statement is the rendering of the specified clauses, and the lookup maps the aliases of the selected tables |
| Finder.RegroupDomain | fuel/packages/activerecord/classes/activerecord/model.php:345-354 | a table and column appear in a transformed row exactly when some row column targets them |
| Finder.RegroupLastWins | fuel/packages/activerecord/classes/activerecord/model.php:348-352 | a column not overwritten by a later one with the same target keeps its value |
| Finder.TransformRow | fuel/packages/activerecord/classes/activerecord/model.php:345-354 | the loop regroups the row by table and column |
| Finder.GatherAppends | fuel/packages/activerecord/classes/activerecord/model.php:389-398 | each association whose table the row holds receives that table's data, appended; the others are untouched |
| Finder.AddAssociationData | fuel/packages/activerecord/classes/activerecord/model.php:389-398 | the loop hands out a row's association data as specified |
| Finder.Position | fuel/packages/activerecord/classes/activerecord/model.php:376-386 | finds the record already built from the same base data, or reports there is none |
| Finder.JoinedLast | fuel/packages/activerecord/classes/activerecord/model.php:376-386 | a row adds to the record with its base data, or appends a new one; it never changes the base data of a record |
| Finder.JoinedDistinct | fuel/packages/activerecord/classes/activerecord/model.php:376-386 | with joins no two records share base data |
| Finder.JoinedCovers | fuel/packages/activerecord/classes/activerecord/model.php:376-386 | every row's base data has a record |
| Finder.JoinedFromRows | fuel/packages/activerecord/classes/activerecord/model.php:376-386 | every record's base data comes from some row |
| Finder.JoinedFirstSeen | fuel/packages/activerecord/classes/activerecord/model.php:373-386 | the records come in the order their base data is first seen in the rows |
| Finder.JoinedLoaded | fuel/packages/activerecord/classes/activerecord/model.php:388-398 | each record holds, per association, exactly the data of the rows with its base data, in row order |
| Finder.Plain | fuel/packages/activerecord/classes/activerecord/model.php:401-404 | without joins, one record per row, in row order, with the row's columns and no association data |
| Finder.FindOutcomes | fuel/packages/activerecord/classes/activerecord/model.php:406-410 | RecordNotFound exactly when nothing is found for ids or a numeric id; ids and `'all'` give every record; `'first'` and one id give the first record or null |
| Finder.FindWithoutInclude | fuel/packages/activerecord/classes/activerecord/model.php:400-404 | without `include`, one record per returned row, in row order |
| Finder.FindWithInclude | fuel/packages/activerecord/classes/activerecord/model.php:373-399 | with `include`, the returned rows are transformed and joined by base data |
| Finder.Find | fuel/packages/activerecord/classes/activerecord/model.php:356-411 | runs the generated statement and gives the specified outcome |
| Finder.BuildRecords | fuel/packages/activerecord/classes/activerecord/model.php:362-405 | the row loop builds the records that the specification demultiplexes |

## Left out

- Database access becomes events in `log`. INSERT, UPDATE and DELETE are recorded, not executed. The key an INSERT returns is the parameter `generatedId`, and the rows of a query are the function `db`. The `LIMIT 1` of UPDATE and DELETE is implied by the event.
- Inflection (`pluralize`, `tableize`, `classify`) and quoting (`quote`) live outside this class; they are total functions passed in.
- The association classes are not part of this model. Their `get`, `set`, `get_ids`, `set_ids`, `save`, `save_as_needed`, `destroy`, `populate_from_find` and the operations `__call` invokes appear only as outcomes or events. `needs_saving()` is the set `needs`, and `join()` is a `JoinSpec` fixed in the declaration.
- Records.OwnerStep: what a belongs-to association's `set` does during `save()` (model.php:223-228) is the parameter `links`, the foreign key and the saved owner's key it writes through `__set`. The owner's own save is the event `SaveRelated`. An association name is never a column (`Consistent`), so the reassignment always reaches the association.
- Records.ReadPriority: a read that reaches an association reports the delegation, not the value the association returns.
- Hooks are defined by subclasses; running one is an event, and a hook cannot change the instance.
- `decode_if_json` on the find options is not part of this model. The options are already an array.
- The trivial getters `get_columns`, `get_primary_key`, `is_frozen`, `is_new_record` and `is_modified` are the class's own fields.
- PHP's loose `==` in `generate_find_query` and `find` is replaced by the tagged `Identifier`. As a result, PHP quirks such as an integer id `0` equalling `'all'` are not modelled.
- `is_numeric` is modelled for decimal strings only. Hexadecimal strings, and trailing white space accepted by PHP 8, are not modelled.
- PHP notices and warnings do not appear in the model. Examples: reading a missing `_ids` association, `reset(array_keys())` by reference, and an unset `$values` when the primary key is the only column; in that last case the model passes the empty list.
- Query.Include: the model assumes that each association's `join()` yields exactly one table with its columns, for `belongs_to`, `has_one` and `has_many` alike. The association classes are not part of this model.
- Finder.Find: returns records as values `Found(attributes, loaded)`, not instances. The base data stands for `new $class($objects[...], false)`, and `loaded` stands for what `populate_from_find` received.
- Finder.Find: two base rows are the same record when their data are equal. This stands in for comparing `md5(serialize(...))`.
- Finder.Find: the class is an explicit `schema` argument, because the source passes an undefined `$class` at line 358.
- Finder.AddAssociationData: visits associations in registration order rather than tables in row order. Each association receives the same data in the same row order.
- Finder.Plain: rows are taken as holding column names only. A row with another key makes the source's constructor throw, which is not modelled.
- Finder.FindWithInclude: stated only for a base table with at least one column. A table without columns can leave the alias lookup empty.
- Conditions.WherePositional: stated only when no quoted value contains `?`. The general case is `Substitute`, the repeated first-match replacement itself, which the methods follow.
- Conditions.SubstituteNamedUnused: PCRE metacharacters inside a `:key` pattern, and `$n` back-references inside a replacement value, are taken literally.
- Conditions.Substitute, Conditions.WherePositional, Conditions.PositionalWhere and Conditions.NamedWhere: `preg_replace` reads `$n`, `\n` and `\\` in a replacement string as references and escapes (model.php:525 and model.php:543). The model inserts each quoted value literally.
- Conditions that are neither a string nor an array make `convert_conditions_to_where` fall off its end and return null (model.php:506-565). The `Conditions` datatype has no such case.
- ActiveRecord.Model.constructor: `__construct` is split into allocation (the constructor) and its body (`Populate`), because the body can raise.
- ActiveRecord.Model.CascadeDependents: the events of the pass are appended to the log at its end rather than one by one. Their order is the same.
- Records.SaveNewRecord: assumes that every foreign key the belongs-to pass writes is a column. Otherwise `__set` refuses it and `save()` stops before any database write, as `Records.SaveIsPersist` states.
- Records.SaveModifiedRecord: assumes that every foreign key the belongs-to pass writes is a column, as for `Records.SaveNewRecord`.
- Records.UpdateAttributesColumns: assumes that every foreign key the belongs-to pass writes is a column, as for `Records.SaveNewRecord`.
- Records.SaveUnmodified: stated for a record that no belongs-to association needs to save, or a frozen one. When an owner's key is written back, the record becomes modified and is updated (`Records.SaveModifiedRecord`).
- Records.SaveTwice: stated when no belongs-to association needs saving in the second save. Otherwise the owner's key is written again, and the record is updated again (`Records.SaveModifiedRecord`).
- Every method of `ActiveRecord.Model`, and the lemmas `Records.SaveModifiedRecord`, `Records.DestroyDeletesOnce` and `Records.UpdateAttributesColumns`, assume that the primary key is one of the declared columns (`WellFormed`). Otherwise reading the key property at model.php:283 and model.php:327 fails in the source, and that failure is not modelled.
