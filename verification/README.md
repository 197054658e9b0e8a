# A verified model of the MariaDB–Stoolap storage engine

The repository lets MariaDB store and query its tables in Stoolap, another SQL
engine. Its difficult parts are the places where one engine's work is said again
in the other's terms and must mean the same. This project models those parts in
Dafny and proves that they do, or exactly when they do.

| module | what it models |
|---|---|
| `Values`, `Sorting` | the values both sides exchange, MariaDB's order of them (NULL first), and the sort by it |
| `KeyBounds` | a key bound compiled to a postfix And/Or program (`rust/src/key.rs`) and run on a stack (`rust/src/read.rs`) |
| `PadOrder` | PAD SPACE order of text, where bytes give another, and a weight that sorts as it does |
| `KeyReads` | key lookups and filtered ranges of the handler, index scans, PAD SPACE included, and the ORDER BY columns they leave out (`src/ha_stoolap.cc`) |
| `Pager` | the ordered read in pages that may switch to a sorted scan (`rust/src/read.rs`) |
| `SqlExpr`, `SqlMeaning` | the SQL generator's expressions (`src/stoolap_sqlgen.cc`), both engines' evaluation of them, and their agreement |
| `DirectUpdate`, `UpdateMeaning` | the direct UPDATE: its generation, its run between two counts, and its agreement with MariaDB's left-to-right strict-mode SET |
| `DerivedMerge` | FROM and WHERE assembly with derived tables merged into their base tables |
| `Session`, `BulkInsert` | the session's transactions and table handles (`rust/src/session.rs`), the handlerton callbacks, and a bulk INSERT over them |
| `UniqueWrites` | direct inserts, updates and deletes with their UNIQUE checks (`rust/src/write.rs`) |
| `AutoIncrement`, `Record` | the saturating uint64 allocator (`src/stoolap_bridge.cc`) and the record codec (`rust/src/record.rs`) |

Code that works by changing things step by step (the node vectors, the pager, the
handler, the session, the writers, the allocator, the record buffer) is a class or
a method over arrays and fields, proved against a specification function; the
lemmas then say what that function means. Code that only computes is a function.

MariaDB's and Stoolap's own behaviour enters as stated contracts: how a collation
folds a string, how values of unlike types compare, which are true and the form a
column stores its values in are parameters (`SqlExpr.World`); a collation's weights are a parameter of each key
part (`KeyReads.KeyPart`); what an engine answers to a begin, a flush or a commit
is a parameter of the call (`BulkInsert.Answer`).

Where the code does not meet its promise on every input, the model keeps the code
as it is, shows an input, and proves when it does:

- a boolean-typed IF, CASE, COALESCE or NULLIF used as a condition is accepted but
  emitted as an integer: `SqlMeaning.ConditionsAreBoolean` is the exact condition,
  `SqlMeaning.MixedConditionFails` what happens for every such condition;
- NULLIF of an ENUM or SET column is selected as text, and yields the number such a
  column stores: `SqlMeaning.SelectedReadsBack` says that the client reads MariaDB's
  value of every other accepted item, and of such a NULLIF if and only if it is NULL;
- an UPDATE that sets one column twice can count a row it leaves unchanged
  (`UpdateMeaning.DuplicateTargets`). Its table and its errors are MariaDB's all
  the same, and `UpdateMeaning.ChangedCountIsExact` says when the count is: if and
  only if no row the condition takes is left as it was after a replaced value that
  differs from it;
- on a foreign-key table, a row the buffer refuses after others and before the
  first chunk leaves the earlier ones committed although the statement fails:
  `BulkInsert.AllOrNothing` gives the exact condition (`Leaks`);
- a row stored under the smallest 64-bit integer is not seen by the single-row
  UNIQUE check (`UniqueWrites.SlippingRun`): `UniqueWrites.InsertCheckIsExact` is
  the exact condition for one check, `UniqueWrites.EveryRunKeepsUnique` for whole
  runs, `UniqueWrites.BatchIsOneByOne` what the batch check sees beyond it;
- the upper bounds of a composite range lose the rows whose first differing part is
  a NULL against a value: `KeyBounds.RangeIsIndexOrder` is exact in both directions;
- a PAD SPACE `_bin` part is offered as ordered, though bytes do not order it as
  MariaDB does. `PadOrder.BytesOrderPadded` says for which texts they do,
  `KeyReads.ReadInKeyOrder` for every index and set of rows when a read comes in
  MariaDB's order, and `KeyReads.PaddedScan` reads rows that do not. The comment at
  `src/ha_stoolap.cc:732-777` claims the order; the model follows the code;
- a second FROM reference to a unit already merged is rightly not merged, but its
  subquery then takes over the unit's columns (`DerivedMerge.RepeatedUnit`):
  `DerivedMerge.ColumnsArePlaced` is the exact condition. MariaDB parses a CTE anew
  for each further reference, so its units are not shared in this way;
- the largest uint64 given explicitly is not noted by the AUTO_INCREMENT allocator
  (`AutoIncrement.LargestIdIsNotNoted`): `AutoIncrement.NotedIsPast` is the exact
  condition;
- a session's statement view outlives the commit of its transaction until the next
  statement end or begin (`Session.ViewOutlivesCommit`), where reads take a view.

## Model

| member | source | states |
|---|---|---|
| KeyBounds.RunConcat | rust/src/read.rs:254-295 | a program run after another is the two run in turn, failing when either lacks operands |
| KeyBounds.YieldsJoin | rust/src/read.rs:254-275 | an And or Or takes exactly the operands its own part of the program pushed, whatever was on the stack before |
| KeyBounds.Open | rust/src/read.rs:214-322 | opening a read fails exactly when a join lacks operands, and otherwise gives the rows on which every expression left is TRUE, the single-row path by primary key included |
| KeyBounds.CompareMeans | rust/src/key.rs:107-127 | one part's comparison, for NULL, a value or a value beyond every stored one, means the part's place in MariaDB's order except where an upper bound meets a NULL |
| KeyBounds.CompareInto | rust/src/key.rs:130-146 | appends a comparison's conditions and says whether any row can meet it |
| KeyBounds.All | rust/src/key.rs:150-164 | the AND of several comparisons: TRUE on a row exactly when each is, never when one is |
| KeyBounds.LegsAreLexicographic | rust/src/key.rs:197-247 | the legs "equal before, strictly past here" of a range of any number of parts are the lexicographic order, the last leg deciding ties |
| KeyBounds.CollectLegs | rust/src/key.rs:208-228 | the loop over the parts gathers legs that together hold exactly where the row is within the bound, or reports that every row meets one |
| KeyBounds.RangeNodes | rust/src/key.rs:197-247 | the program of a composite range, the added leading-part condition included, accepts the rows within the bound and no others |
| KeyBounds.LeadingNodes | rust/src/key.rs:182-195 | a leading bound keeps every row the key range may hold; a part that cannot bind keeps all |
| KeyBounds.LookupNodes | rust/src/key.rs:249-268 | a lookup's conditions part by part, with the skipped and the padded ones, or none when no row qualifies |
| KeyBounds.BoundNodes | rust/src/key.rs:172-269 | for any parts, NULLs, values and beyond-range values: the program is TRUE on a row exactly when the bound holds of it, a false return means no row is within the bound in MariaDB's order, and the program neither lacks operands nor takes another bound's |
| KeyBounds.RangeIsIndexOrder | rust/src/key.rs:197-247 | a lower bound is MariaDB's lexicographic order exactly; an upper one is that order without the rows whose first differing part is NULL against a value |
| KeyBounds.EqualityIsIndexOrder | rust/src/key.rs:249-268 | an equality on every part is equality in the index order, NULL equal to NULL |
| KeyBounds.UpperBoundLosesNull | rust/src/key.rs:107-127 | the loss of an upper bound happens: a NULL key is below (1) and is not read |
| KeyBounds.PadFindsEveryMatch | rust/src/key.rs:271-298 | for every search string and column width, a stored value equal up to trailing spaces is among the candidates, by equality or by the byte range |
| KeyBounds.PadIsExact | rust/src/key.rs:279-298 | below 256 variants the candidates are exactly the values equal up to trailing spaces and no longer than the column, or than the trimmed search string where that is longer |
| KeyBounds.PadSpaceNodes | rust/src/key.rs:279-298 | the emitted equalities, or the byte range, accept exactly the candidates |
| KeyBounds.Read | rust/src/read.rs:214-322 | bounds compiled and read together give the rows within all of them, in table order, and nothing when some bound admits none |
| Sorting.SortSorts | rust/src/read.rs:144-168 | the sort by columns orders the rows by MariaDB's value order, in both directions |
| Sorting.CompareByTransitive | rust/src/read.rs:419-428 | the comparison by columns is transitive, and equal only where each step is |
| Values.CompareTransitive | rust/src/read.rs:430-439 | the order of values, NULL before any, is transitive |
| PadOrder.BytesOrderPadded | src/ha_stoolap.cc:732-777 | bytes order two texts as PAD SPACE does if and only if neither goes on past the other with spaces up to its end or to a byte below a space |
| PadOrder.PaddedVerdict | src/ha_stoolap.cc:732-777 | of two texts in byte order: in order, equal or the other way round to PAD SPACE, by what the second goes on with |
| PadOrder.PaddedEqual | src/ha_stoolap.cc:1679-1686 | two texts are equal to a PAD SPACE collation exactly when they are but for trailing spaces |
| PadOrder.PadKeyOrders | src/ha_stoolap.cc:1679-1686 | a weight that sorts by bytes as PAD SPACE sorts the text exists, so the collations assumed do |
| PadOrder.HexOrders | src/stoolap_types.h:94-101 | hexadecimal text of single-byte characters sorts as the bytes it stores |
| KeyReads.UnfilteredIsOneToOne | src/ha_stoolap.cc:1658-1677 | a key part the handler does not filter is one whose equal keys are equal stored values, by what each type and collation compares |
| KeyReads.SafeIsByValue | src/ha_stoolap.cc:2044-2050 | a part it lets the engine sort and bound is ordered by MariaDB as its stored values are |
| KeyReads.PaddedWeights | src/ha_stoolap.cc:1682-1686 | a part it looks up with pads compares as if the shorter string went on with spaces |
| KeyReads.SortedPair | src/ha_stoolap.cc:1767-1787 | two rows of any index sorted by the columns left in the order are out of MariaDB's whole-key order if and only if the first part they differ in pads, one string goes on past the other with at most spaces, and with spaces alone the parts after it are the other way round |
| KeyReads.ReadInKeyOrder | src/ha_stoolap.cc:1704-1853 | an ordered read of any index comes in MariaDB's order if and only if no two of its rows are such a pair, and so whenever no part it is sorted by pads |
| KeyReads.DroppedPartsAreConstant | src/ha_stoolap.cc:1767-1787 | every part left out of the order is constant over the rows read: bound by equality or IS NULL, or matched by the filter |
| KeyReads.KeyReadInOrder | src/ha_stoolap.cc:1704-1803 | rows meeting a bound and sorted by the remaining parts are out of MariaDB's whole-key order at exactly the misordered pairs, in both directions, the dropped parts being constant over them |
| KeyReads.ExactLookup | src/ha_stoolap.cc:1808-1821 | a candidate of an exact lookup that passes the key filter is a row with that key, and every such row is a candidate |
| KeyReads.ExactReadIsComplete | src/ha_stoolap.cc:1704-1821 | an exact read after its filter is, as a multiset, the table's rows with that key |
| KeyReads.BoundIsBounded | src/ha_stoolap.cc:1704-1760 | for any other lookup over parts equal or ordered as their values are, the bound is equality in the earlier parts and, in the last, the side of the key its flag names, NULLs apart |
| KeyReads.RangeBoundsKeepTheRange | src/ha_stoolap.cc:2037-2126 | for every combination of flags, NULLs and missing bounds, a row between the two keys in MariaDB's order is within the bounds given to the engine |
| KeyReads.RangeReadIsComplete | src/ha_stoolap.cc:1994-2026 | the candidates filtered by the range are exactly the rows of the range, each once |
| KeyReads.RangeReadOrdered | src/ha_stoolap.cc:2037-2126 | so are those of a sorted range read, among the rows the WHERE takes |
| KeyReads.RangeBoundMeans | src/ha_stoolap.cc:1904-1951 | over parts ordered as their values are, one end of a range given to the engine is MariaDB's key comparison, an upper one without the rows below it by a NULL |
| KeyReads.EngineRangeIsTheRange | src/ha_stoolap.cc:1904-2026 | the two ways to read a range agree: what the engine answers alone is what the key comparison keeps, less the rows below the upper end by a NULL |
| KeyReads.Handler.OpenRead | src/ha_stoolap.cc:1485-1523 | opens the bounds' rows, sorted when an order is given; nothing is left pending when no row qualifies |
| KeyReads.Handler.Next | src/ha_stoolap.cc:1808-1821 | gives the next row the filter keeps, and the end exactly when none is left |
| KeyReads.Handler.OpenKeyRead | src/ha_stoolap.cc:1730-1803 | the rows of the lookup, each once: for the exact one those with the key, for another those within its bound; sorted where it asks for it, misordered pairs and no others out of order |
| KeyReads.Handler.OrderOf | src/ha_stoolap.cc:1767-1787 | the loop leaves exactly the columns of the parts that are not constant |
| KeyReads.Handler.IndexReadMap | src/ha_stoolap.cc:1704-1803 | the first row and those to come are the lookup's rows, each once; not found means there are none; ordered reads are out of the index's order at exactly the misordered pairs |
| KeyReads.Handler.IndexEndRead | src/ha_stoolap.cc:1840-1853 | from either end of the index: the whole table, each row once, the same of its order; the end only for an empty table |
| KeyReads.Handler.ReadAll | src/ha_stoolap.cc:1823-1853 | the scan from one end to the other gives just that |
| KeyReads.PaddedScan | src/ha_stoolap.cc:1840-1853 | on a VARCHAR _bin and INT index, two rows come out of MariaDB's order if and only if the second's text overtakes the first's |
| KeyReads.Handler.BoundsOf | src/ha_stoolap.cc:2037-2100 | the bounds of a filtered range and the leading parts both keys share |
| KeyReads.Handler.ReadRangeFiltered | src/ha_stoolap.cc:2037-2126 | the range's rows, each once, for every pair of bounds; not found means the range is empty; sorted, only misordered pairs are out of order |
| KeyReads.Handler.ReadRange | src/ha_stoolap.cc:1855-1992 | a range over any unsafe part is filtered; of any other the engine gives exactly the rows each end's flag asks for, each once, and refuses just the flags it has no comparison for; sorted, only misordered pairs are out of order |
| Pager.EveryRun | rust/src/read.rs:75-140 | after any run of calls the rows given are a prefix of the index, or that prefix followed by a prefix of the rest of one sorted scan, of the table as the one call that switched saw it |
| Pager.SwitchLosesNothing | rust/src/read.rs:90-140 | wherever the index stops answering, the rows given and the rest of the sorted scan are together the table, each row once |
| Pager.SwitchKeepsOrder | rust/src/read.rs:90-140 | the rest of the scan sorts after the rows given, whatever the table holds by then |
| Pager.FinishedReadGivesEveryRowOnce | rust/src/read.rs:75-140 | a finished read gave every row once in column order, NULL first ascending and last descending, however the pages fell and wherever it switched |
| Pager.FinishedReadOfAChangedTable | rust/src/read.rs:75-140 | however the table changed between calls, the rest is exactly the rows it had at the switch that sort after the last given value, and the equal ones whose ids were not given |
| Pager.ExhaustedIsTheEnd | rust/src/read.rs:409-415 | an exhausted read gives no further row, and one that gave none is exhausted |
| Pager.PagedCursor.Fill | rust/src/read.rs:92-140 | one page, or the rest of the scan, with the offset, page size and end mark advanced |
| Pager.PagedCursor.NextRow | rust/src/read.rs:367-407 | the next row, filling a page when the last one is used up, with the last value and its ids kept |
| Pager.PagedCursor.IsExhausted | rust/src/read.rs:409-415 | true exactly when no table, whatever it answers, could give a further row |
| SqlMeaning.TypedConsistent | src/stoolap_sqlgen.cc:193-268 | the generator's class of an item agrees with the MariaDB type behind it |
| SqlMeaning.ComparisonAgrees | src/stoolap_sqlgen.cc:274-300 | operands the generator calls comparable compare alike on both sides, strings only where bytes decide |
| SqlMeaning.ArithmeticAgrees | src/stoolap_sqlgen.cc:1164-1173 | accepted arithmetic gives the same number, NULL or overflow on both sides, and Stoolap never divides integers |
| SqlMeaning.BranchesFit | src/stoolap_sqlgen.cc:310-340 | branches of one family have the result's class, or are integers of a float result |
| SqlMeaning.BranchMeans | src/stoolap_sqlgen.cc:325-334 | a branch's SQL is the branch in the function's own type, an integer of a float result cast |
| SqlMeaning.CastAgrees | src/stoolap_sqlgen.cc:703-716 | a boolean used as a value becomes MariaDB's 1 or 0 |
| SqlMeaning.NodeMeans | src/stoolap_sqlgen.cc:718-764 | an accepted item's SQL has its value over the stored row: the same condition, or the same integer, float or text, NULL and overflow together |
| SqlMeaning.ExprMeans | src/stoolap_sqlgen.cc:703-716 | the same for a value position: an INT-class item yields that integer, a REAL-class one a float and never an integer |
| SqlMeaning.ConditionMeans | src/stoolap_sqlgen.cc:695-702 | an accepted condition is TRUE, FALSE or NULL in Stoolap as it is in MariaDB |
| SqlMeaning.AllMeans | src/stoolap_sqlgen.cc:975-996 | AND reads on after a NULL and stops only at FALSE on both sides |
| SqlMeaning.AmongMeans | src/stoolap_sqlgen.cc:1066-1078 | IN finds, misses or does not know alike, NULLs in the list included |
| SqlMeaning.RangeAgrees | src/stoolap_sqlgen.cc:1042-1065 | BETWEEN and NOT BETWEEN with NULL bounds agree |
| SqlMeaning.ChosenMeans | src/stoolap_sqlgen.cc:1106-1126 | a searched CASE takes the same branch, in the result's type |
| SqlMeaning.MatchedMeans | src/stoolap_sqlgen.cc:1127-1153 | a simple CASE takes the same branch, a NULL subject or WHEN matching none |
| SqlMeaning.IfMeans | src/stoolap_sqlgen.cc:1202-1212 | IF is the CASE it is written as |
| SqlMeaning.FirstMeans | src/stoolap_sqlgen.cc:1182-1191 | COALESCE and IFNULL give the first value that is not NULL, in the result's type |
| SqlMeaning.NullIfValue | src/stoolap_sqlgen.cc:1192-1201 | NULLIF of two operands safe on their own agrees whichever collation MariaDB settles on |
| SqlMeaning.JoinedMeans | src/stoolap_sqlgen.cc:1222-1234 | the concatenation operator is NULL exactly when CONCAT is, and the same text otherwise |
| SqlMeaning.FormMeans | src/stoolap_sqlgen.cc:703-716 | whatever its class, an accepted item's SQL yields the stored form of MariaDB's value: the column's own where a column is passed on, alone or through NULLIF, and the plain one of anything computed |
| SqlMeaning.SelectedReadsBack | src/stoolap_sqlgen.cc:379-412 | the client reads MariaDB's value for every accepted item of a select list, if and only if it is not a NULLIF of an ENUM or SET column that is not NULL |
| SqlMeaning.IndexIsTaken | src/stoolap_sqlgen.cc:1192-1201 | such a NULLIF is accepted, as text |
| SqlMeaning.ConditionsAreBoolean | src/stoolap_sqlgen.cc:695-716 | every condition position of the emitted SQL holds a boolean if and only if no IF, CASE, COALESCE or NULLIF stood in one |
| SqlMeaning.MixedConditionFails | src/stoolap_sqlgen.cc:698-702 | such a condition, accepted, is an integer Stoolap refuses on every row where MariaDB has a truth value for it |
| SqlMeaning.MixedConditionExample | src/stoolap_sqlgen.cc:698-702 | a concrete one: COALESCE(c = 1) is TRUE to MariaDB and refused by Stoolap |
| SqlMeaning.NotNullMeans | src/stoolap_sqlgen.cc:1573-1581 | a condition that may not be NULL never is, so leaving out its IS NOT NULL is sound |
| UpdateMeaning.IntRangeIsTheColumns | src/stoolap_sqlgen.cc:1594-1620 | the shifts give the ranges of TINYINT, SMALLINT, MEDIUMINT and INT, signed and unsigned |
| UpdateMeaning.RangeGuardValue | src/stoolap_sqlgen.cc:1663-1676 | the range CASE yields the value, or the guard's overflow exactly for one outside the column |
| UpdateMeaning.LengthCaseValue | src/stoolap_sqlgen.cc:1688-1723 | the length CASE yields the value, cuts ASCII white space past the column, and yields the overflow for anything else past it |
| UpdateMeaning.StrippedEmpty | src/stoolap_sqlgen.cc:1714-1718 | the REPLACE chain leaves nothing exactly when all of it is white space |
| UpdateMeaning.AcceptedAssigns | src/stoolap_sqlgen.cc:1632-1770 | an accepted SET value is the one MariaDB stores, fails exactly when strict mode refuses it, and what IS DISTINCT FROM compares then differs from everything the column may hold |
| UpdateMeaning.NoSecondGuard | src/stoolap_sqlgen.cc:1745-1746 | at most one SET value is guarded, so the guard names the one that failed |
| UpdateMeaning.SetsMean | src/stoolap_sqlgen.cc:1539-1560 | a SET list read left to right gives Stoolap's simultaneous values, a column's last one staying; changes is TRUE exactly when one of them, replaced or not, differs from the row before; and both fail together |
| UpdateMeaning.WhereValue | src/stoolap_sqlgen.cc:1573-1587 | a row whose condition is FALSE or NULL is passed over whatever the changes condition would give, an error included |
| UpdateMeaning.RowMeans | src/stoolap_sqlgen.cc:1513-1589 | one row: written exactly when the condition takes it and SET stores a differing value (or the client asked for found rows), as MariaDB left it with its CHECK conditions and ON UPDATE columns, whatever columns are set how often |
| UpdateMeaning.UpdateMeans | src/stoolap_sqlgen.cc:1513-1589 | the statement leaves MariaDB's table and fails exactly when MariaDB does; it counts the rows MariaDB counts and the overcounted ones |
| UpdateMeaning.CountMeans | src/ha_stoolap_select.cc:221-240 | the count of the condition is the number of rows MariaDB finds |
| UpdateMeaning.PkEqualityMeans | src/stoolap_sqlgen.cc:1482-1509 | two rows that meet a primary-key equality, alone or among ANDed conditions, have one key |
| UpdateMeaning.OneFound | src/stoolap_sqlgen.cc:1482-1509 | no two rows of a table with unique keys meet such a condition |
| UpdateMeaning.DirectModifyMeans | src/ha_stoolap_select.cc:242-344 | over both count paths: the same table, the found rows MariaDB reports, the changed ones and the overcounted, and MariaDB's own error for a value its column cannot hold |
| UpdateMeaning.ChangedCountIsExact | src/ha_stoolap_select.cc:242-344 | the changed rows reported are MariaDB's if and only if no row the condition takes is left as it was though a replaced SET value differs from its column |
| UpdateMeaning.DistinctTargetsCountRight | src/stoolap_sqlgen.cc:1539-1560 | with distinct targets none is |
| UpdateMeaning.DuplicateTargets | src/stoolap_sqlgen.cc:1539-1560 | a concrete overcount: c = 1, c = 2 over a row whose c is 2 |
| DirectUpdate.Modifier.AssignOne | src/stoolap_sqlgen.cc:1632-1770 | one assignment added with its guard and its column marked as set, refused when a second guard would be needed |
| DirectUpdate.Modifier.AssignEach | src/stoolap_sqlgen.cc:1539-1560 | the loop over the SET list builds the whole list or refuses it |
| DirectUpdate.Modifier.Modify | src/stoolap_sqlgen.cc:1513-1589 | the statement of an UPDATE with its count and guard, or a refusal, of a table with a CHECK condition or an ON UPDATE column too; the marked columns are cleared before the condition |
| DirectUpdate.Engine.CountRows | src/ha_stoolap_select.cc:221-240 | counts the rows the condition takes, none when one of them fails it |
| DirectUpdate.Engine.TryDirectModify | src/ha_stoolap_select.cc:242-344 | count before, UPDATE, count after for a one-row condition that changed nothing; a failure leaves the rows and reports the guard's error |
| DerivedMerge.SubstMeans | src/stoolap_sqlgen.cc:423-428 | an expression over MariaDB's joined rows is its substitution over the merged ones, through the units' aliases and view columns, NULL-complemented elements included |
| DerivedMerge.FromWriter.TableRef | src/stoolap_sqlgen.cc:647-689 | a mergeable derived table becomes its base table with its WHERE handed out, any other element itself; its columns are then named over that table or that element |
| DerivedMerge.FromWriter.JoinList | src/stoolap_sqlgen.cc:559-610 | the backward walk, into a group that opens the list, writes the FROM of the specification, or refuses |
| DerivedMerge.RowJoined | src/stoolap_sqlgen.cc:590-607 | a row is in MariaDB's derived table and taken by its ON exactly when the merged ON and the conditions moved out take it |
| DerivedMerge.JoinOneMeans | src/stoolap_sqlgen.cc:599-606 | a row of the elements before is NULL-complemented on one side exactly when it is on the other |
| DerivedMerge.JoinMeans | src/stoolap_sqlgen.cc:559-610 | one inner, cross or left join keeps the correspondence, a WHERE moved out earlier dropping the same rows |
| DerivedMerge.FromMeans | src/stoolap_sqlgen.cc:559-657 | for every left-deep chain, MariaDB's joined rows are the written ones under the WHERE moved out |
| DerivedMerge.GroupIsFlat | src/stoolap_sqlgen.cc:580-587 | a parenthesised group that opens the FROM, nested or not, joins as its elements without parentheses do |
| DerivedMerge.MergeKeepsTheRows | src/stoolap_sqlgen.cc:366-428 | the query gives the same rows in the same order, LIMITs, DISTINCTs and whatever else finishes a derived table's rows included, for every list in which no reference written as a subquery repeats a unit |
| DerivedMerge.WrittenExactly | src/stoolap_sqlgen.cc:559-610 | a FROM is written exactly when it begins with a table without an ON and every outer join has one |
| DerivedMerge.PlacedUnlessRepeated | src/stoolap_sqlgen.cc:640-642 | one more element keeps every element's columns its own if and only if it is no reference that repeats a unit as a subquery |
| DerivedMerge.ColumnsArePlaced | src/stoolap_sqlgen.cc:640-689 | over the whole list, each element's columns are named over that element exactly when none repeats a unit so |
| DerivedMerge.RepeatedUnit | src/stoolap_sqlgen.cc:647-678 | one that does: the first reference's column reads the second's |
| DerivedMerge.ComplementedColumns | src/stoolap_sqlgen.cc:630-639 | a column merged under an outer join reads as MariaDB's exactly when it is NULL over NULLs |
| Session.StepKeeps | rust/src/session.rs:97-323 | every call keeps the invariant: a transaction in the executor exactly when one is open, never beside the statement's own, every cached handle the live one's, and pending statement writes marked |
| Session.Run | rust/src/session.rs:97-323 | so does every run of calls and of other sessions' commits |
| Session.ReadSeesWrites | rust/src/session.rs:188-224 | after any run, a direct read of a table sees every direct write of the live transaction to it |
| Session.WhatAReadSees | rust/src/session.rs:188-292 | a read sees what is committed, or was when a snapshot or the statement's view was taken, and the transaction's own writes, once each; it commits and writes nothing |
| Session.WhatACallDoes | rust/src/session.rs:92-323 | what every call commits and leaves pending, to the write: a begin settles the statement's writes first and starts at the level asked, a write adds its own to the live transaction, SQL outside one commits by itself |
| Session.NoWriteIsLost | rust/src/session.rs:92-323 | over any run that rolls nothing back, every direct write is committed or pending, once and in the order made |
| Session.OneView | rust/src/session.rs:278-292 | between two statement ends everything read through a view is read from one state |
| Session.ViewOutlivesCommit | rust/src/session.rs:316-322 | after a commit or rollback alone, the next read still uses the old view, where the executor's own level is read committed |
| Session.OthersCommitNothingDirect | rust/src/session.rs:162-323 | direct writes are committed only by a committing statement end, a begin or a commit |
| Session.StatementEndCommitsAll | rust/src/session.rs:297-314 | a committing statement end commits all the statement wrote, though it rolls back a transaction not marked as having written |
| Session.CallbacksSettle | src/ha_stoolap.cc:109-158 | a real commit takes all pending writes or, refused, none; a rollback none; no transaction, handle or view is left, and inside an explicit transaction nothing changes |
| Session.Session.EndStatement | rust/src/session.rs:294-314 | drops handles and view and ends the statement's transaction as told |
| Session.Session.Begin | rust/src/session.rs:162-172 | refused when one is open; otherwise the statement's writes are committed first, and stay so when the engine's begin then fails |
| Session.Session.Commit | rust/src/session.rs:174-182 | the open transaction's writes are committed, or rolled back when the commit fails |
| Session.Session.WithHandle | rust/src/session.rs:242-273 | a cached handle, or one of the live transaction, begun if there is none; through the view where the level it runs at is read committed |
| Session.Session.OpenTable | rust/src/session.rs:275-292 | the view is captured at its first use and shared by the statement's reads |
| Session.Session.WithTable | rust/src/session.rs:188-201 | reads a written table through its write handle, any other through its read handle |
| Session.Session.WithWriteTable | rust/src/session.rs:203-224 | adds the writes to the live transaction and marks the statement's own |
| Session.Session.Run | rust/src/session.rs:92-115 | in the open transaction; outside one a SELECT sees the statement's own writes and anything else commits by itself |
| Session.Session.RunInStmtTx | rust/src/session.rs:134-151 | the statement's transaction is lent for one SELECT and comes back |
| BulkInsert.AllOrNothing | src/ha_stoolap.cc:1034-1146 | an autocommit bulk INSERT, for any rows, chunking, route and failures, commits all its rows or none, except for exactly the leak named |
| BulkInsert.NothingElseFails | src/ha_stoolap.cc:1034-1146 | with no row refused and no failure of the engine the statement succeeds, inside a transaction too |
| BulkInsert.LeakExample | src/ha_stoolap.cc:1054-1094 | one accepted and one refused row into a foreign-key table: the statement fails and the first row is committed |
| BulkInsert.SqlAlone | rust/src/sql_write.rs:49-76 | rows through SQL outside a transaction are all committed or none |
| BulkInsert.ChunkFlush | src/ha_stoolap.cc:1064-1094 | a chunk of a foreign-key table's rows is pending in the one transaction the chunks share |
| BulkInsert.Handler.FlushBulkBuffer | src/ha_stoolap.cc:1064-1094 | flushes the buffer on the table's route, opening the chunks' transaction first |
| BulkInsert.Handler.WriteOne | src/ha_stoolap.cc:1127-1146 | buffers a row, flushes a full chunk, and rolls back the handler's transaction when that fails |
| BulkInsert.Handler.Insert | src/ha_stoolap.cc:1034-1146 | the whole statement: all rows committed on success, none on a failure that is not the leak |
| BulkInsert.InsertThroughSql | rust/src/sql_write.rs:49-76 | the loop over the rows, in a transaction of their own for several, rolled back at the first failure |
| UniqueWrites.InsertKeepsUnique | rust/src/write.rs:189-248 | a row the check accepts keeps every UNIQUE index, NULL keys never colliding |
| UniqueWrites.InsertCheckIsExact | rust/src/write.rs:26-44 | the check of an insert accepts exactly the rows without a conflict, if and only if the table has no row under the reserved id with a key that can collide |
| UniqueWrites.UpdateKeepsUnique | rust/src/write.rs:55-119 | an update checked only over the indexes of its changed columns keeps every index, moved row included |
| UniqueWrites.BatchIsOneByOne | rust/src/write.rs:125-185 | for any unique indexes and ids, the batch check accepts exactly the batches whose rows would be accepted one by one against the table grown so far, less those with a key the single-row check cannot see |
| UniqueWrites.EveryRunKeepsUnique | rust/src/write.rs:29-123 | uniqueness holds all through a run of direct inserts, updates and deletes if and only if no insert in it slips past its check beside the reserved id |
| UniqueWrites.WriteKeepsUnique | rust/src/write.rs:29-123 | the same of one write, from any table that is unique |
| UniqueWrites.AllowedRunsKeepUnique | rust/src/write.rs:26-123 | runs that never name the reserved id as a primary key stay unique |
| UniqueWrites.SlippingRun | rust/src/write.rs:26-44 | a run that does not: a row under INT64_MIN, then another with its key |
| UniqueWrites.MoveRehomesOrRestores | rust/src/write.rs:90-114 | a primary-key move rehomes the row, or leaves the table exactly as it was |
| UniqueWrites.SetColumnsSets | rust/src/write.rs:75-77 | a row set has in each column named the value given last for it, and its old value in the others |
| UniqueWrites.UpdateStores | rust/src/write.rs:55-115 | an update answers 1 exactly when the row exists, its types are admitted, its home is free and no other row has its key in a touched index; then the row set is stored and every other row stays; otherwise nothing changes |
| UniqueWrites.InsertStores | rust/src/write.rs:29-51 | an insert stores each row up to the first the table does not take under its id, and changes nothing else; it succeeds exactly when the check passes and that is all of them |
| UniqueWrites.DeleteRemoves | rust/src/write.rs:117-121 | after a delete the row is gone, the others stay, and the count says whether there was one |
| UniqueWrites.Table.CheckUnique | rust/src/write.rs:189-248 | the loop over the touched indexes accepts exactly the rows the specification accepts |
| UniqueWrites.Table.CheckUniqueBatch | rust/src/write.rs:125-185 | so does the batch's, with its set of keys seen |
| UniqueWrites.Table.Insert | rust/src/write.rs:29-51 | the rows are inserted, or the table is as the failed step left it |
| UniqueWrites.Table.Update | rust/src/write.rs:55-115 | the row updated in place, moved, refused or gone |
| UniqueWrites.Table.Delete | rust/src/write.rs:117-121 | the row removed and counted |
| AutoIncrement.RoundUp | src/stoolap_bridge.cc:93-108 | never below the cursor, without wrapping |
| AutoIncrement.RoundUpIsLeast | src/stoolap_bridge.cc:93-108 | the least value at or above the cursor congruent to the offset, saturating at the largest |
| AutoIncrement.AdvanceIsPastTheLast | src/stoolap_bridge.cc:110-121 | the new cursor is past every reserved id, or saturated |
| AutoIncrement.ReservationsAreFresh | src/stoolap_bridge.cc:123-159 | over every interleaving between invalidations, a reservation that has not run out starts above every id reserved or noted before it |
| AutoIncrement.FirstIdIsLeast | src/stoolap_bridge.cc:123-147 | its first id is the least on the ladder from the cursor or the seed |
| AutoIncrement.CursorIsOnePast | src/stoolap_bridge.cc:123-159 | after every run the cursor is one past an id taken since the last invalidation, so none is skipped |
| AutoIncrement.FirstIdIsLeastFree | src/stoolap_bridge.cc:123-159 | over every run, a reservation starts at the least id of its ladder above every one taken, and at the largest uint64 only when no lower one is left |
| AutoIncrement.RunOutRepeats | src/stoolap_bridge.cc:110-121 | past the end the largest value is given again |
| AutoIncrement.NotedIsPast | src/stoolap_bridge.cc:149-154 | a noted id is behind the cursor if and only if it is not the largest, or the cursor had run out |
| AutoIncrement.LargestIdIsNotNoted | src/stoolap_bridge.cc:149-154 | after the largest explicit id the next reservation starts from its seed |
| AutoIncrement.Engine.GetAutoIncrement | src/ha_stoolap.cc:2128-2178 | a reservation from the cursor, or one seeded with the least id of the ladder past the largest stored value, or none when that cannot be read |
| Record.IntRoundTrip | rust/src/record.rs:85-114 | an integer that fits its field of 1, 2, 3, 4 or 8 bytes is read back from its bytes, a BIGINT UNSIGNED one unless negative |
| Record.NullFormat | rust/src/record.rs:161-172 | the NULL bit is set exactly for NULL |
| Record.IntFormat | rust/src/record.rs:104-114 | an integer is stored as its two's complement, least significant byte first |
| Record.TextFormat | rust/src/record.rs:134-143 | a VARCHAR is stored as its length, least significant byte first, and its bytes |
| Record.FieldRoundTrip | rust/src/record.rs:102-147 | a field written directly reads back its value, NULL bit included |
| Record.WriteFrame | rust/src/record.rs:155-197 | writing a field changes no byte outside it but its NULL byte, and there no bit but its own |
| Record.RecordRoundTrip | rust/src/record.rs:155-277 | a whole record, over any layout of disjoint fields with distinct NULL bits, reads back the row |
| Record.RecordFrame | rust/src/record.rs:155-197 | no byte of another field and no NULL bit of another changes |
| Record.SameReadsSame | rust/src/record.rs:284-291 | fields the same in two records read the same, and integers that read the same are |
| Record.BeyondMeans | rust/src/key.rs:64-75 | an integer key part is beyond every stored value exactly when it is a BIGINT UNSIGNED past the largest int64, and never needs the callback |
| Record.WriteRecord | rust/src/record.rs:155-197 | the loop over the fields leaves the record of the specification, in place |
| Record.ReadInt | rust/src/record.rs:219-230 | the sign-extending copy reads the integer of the field's bytes |

## Left out

- SQL text, aliases and quoting: the generator emits a tree. Column references are by position.
- LIKE, ABS, CHAR_LENGTH as an item, temporal columns and literals, aggregates, windows, subqueries, set operations and ORDER BY / LIMIT of the generator: their meaning lives in the two engines.
- References to other items and boolean constants inside conditions.
- Float rounding, infinities, -0.0 and bit patterns, and with -0.0 the refusal to set a DOUBLE column where the server would keep it: DOUBLE is a real number, and FLOAT / DOUBLE fields of a record are handed to the callbacks.
- Division by zero is NULL on both sides; a session's ERROR_FOR_DIVISION_BY_ZERO is not modelled.
- Which operand of a comparison or an arithmetic operator is evaluated when another is NULL: both engines are modelled as evaluating all of them.
- The size limit on a checked string value, and TEXT targets cut at white space: only values that fit are accepted there.
- A primary-key equality with a constant expression other than a literal.
- DELETE through the direct path: its rows are those of the condition, which the UPDATE already covers.
- The foreign-key, unique-key and other errors a direct UPDATE may report; only the guard's and an expression's overflow are.
- A derived table MariaDB could merge and the generator does not (window functions, RAND) is taken to have a table of its own, as one with a LIMIT or DISTINCT has.
- Evaluation errors in merged derived tables: `DerivedMerge` has total functions only. A merged column may be evaluated for base rows its WHERE would have dropped.
- KeyReads.SortedPair: with `stoolap_trust_binary_strings` set, a PAD SPACE part is outside the assumptions (`Faithful`), since the session then asks for byte semantics; and a prefix part, from which MariaDB takes no order, is not an ordered part here.
- The memory comparison of restored keys is equality of their values; MariaDB's `key_restore` and `key_cmp` enter through each part's weights.
- KeyBounds.Open: does not check a condition's column against the table's width, does not coerce an operand to its column's type, and has no engine error while scanning; those are the engine's own.
- Isolation other than through what a transaction and a view see, prepared plans, and errors of statements that change nothing.
- BulkInsert.AllOrNothing: claimed in autocommit only, and with the engine committing a transaction that wrote nothing; an explicit transaction's partial INSERT is a known difference of the repository. MariaDB is taken to end the bulk insert after a failed row, as its INSERT does.
- UniqueWrites.Table.Insert: a batch the engine refuses midway leaves the rows before it pending, as the code does.
- AutoIncrement.ReservationsAreFresh: freshness against rows already stored is claimed only through the seed.
- Record.RecordRoundTrip: values the store callback takes are not covered.
- Row-count caches, cost estimates, status counters, error texts, DDL, table names, and the C interface.
