# Verified model of the FlexID managers, the FlexID header and the 2016 resolver

The project models four programs of the repository and proves what they are for.

- **The broker manager** (`resolver/2017/flexIDMnger.py`). Its request handlers share `dbQuery_cache` with the
  thread that receives database replies. `Broker` is that exchange as a state machine with any number of
  handlers, reordered and lost messages and reused query ids; `Refinement` shows that with the manager's one
  request thread it behaves as the local version, where each round trip is a direct call. `Manager` is the
  program itself as a class, statement by statement; `World` says what each request does to its state, `Answers`
  proves what that means for the tables, the caches and the answer in terms of the request's own fields, `Runs`
  proves properties of whole runs, `Reserve` those of interleaved id allocations, `Topics` those of the dispatch.
- **The local manager** (`resolver/2017/flexIDMnger_db.py`), in `LocalManager`: `db_proc` row by row, both id
  generators and `register`. `Batch` holds what both managers' batches have in common and where they differ.
- **The header codec** (`flexid/flexidhdr_fn.c`) as values in `HeaderCodec`, and as the struct, the buffers and the
  receiving client in `FlexHeader`.
- **The 2016 resolver** (`resolver/2016/resolver.py`), in `Resolver`: each request is one transaction.

`Decimal`, `Flags`, `Probe`, `JoinId`, `Tables`, `Queries`, `Requests` and `Wrappers` are the vocabulary.

How the programs are read:

- The docstrings at column 0 of `flexIDMnger.py` are taken as comments, `is ''` and `is not 0` as comparisons of
  values.
- Messages carry QoS 0, the default of the client library: they may be lost but are not duplicated (section 4.3.1
  of MQTT Version 3.1.1). Only the manager writes the database, and a reply is a JSON object, never the bare
  string "None". Handlers run one after the other because there is one client network thread; `Broker` and
  `Reserve` do not need that, `Refinement` does.
- A table is a sequence of rows and strings are equal when they are identical. `Outcome` leaves open how the
  database fares with each query: a failing insert may leave any first part of its rows behind, a failing select
  has no data (which the broker version takes for "does not exist"), a failing delete or update changes nothing. In
  the local version a failing statement raises up to the handler's `try`.
- The schema's keys are part of the database (`Tables.KeysHold`): a primary key refuses a row whose key is there
  already, a foreign key a neighbor or registration of a device that is not, and deleting a device cascades.
  RegisterList has the columns attr1 to attr3 and refuses others. Column types, lengths and `NOT NULL` are not
  modelled; a refusal on their account is among the failures `Outcome` leaves open. The classes have a constant
  `reliable` for a database that answers every select and refuses only what the schema forbids, and their contracts
  say what then follows.
- A request is the record of the fields the handlers read, each possibly missing; a field of the wrong type is
  treated as a missing one. A missing field raises where the code raises and the handler's `except` branch
  answers. A payload that is no JSON object raises outside every `try`, so such a message is no request.
- The content check of `update` sends an empty query; its answer is any value at all, and nothing is proved from it.
- `serialize` allocates `sizeof(fhdr->header_len)` bytes (line 26); the model allocates `header_len` bytes, the evident
  intent. The byte order of the host is a parameter.
- In `resolver.py` a failing `Join` or `Leave` is rolled back. A failing `Update` may leave any first part of its
  entries, because a column-adding `ALTER TABLE` commits them.

Some properties one would expect turned out to hold only under a condition, which the model states exactly:

- In the broker version `attrList` is not emptied between the items of a registration, so a row can get another
  item's attributes (`Batch.RunningAttrsMixUp`); `Batch.RunningAttrs` says for which requests it does not.
- After 16 collisions the management number carries into the segment bit (`Flags.ManagementNumber`).
- A join that lists neither interfaces nor neighbors succeeds without a Device row; its id passes the cached device
  check and every registration under it is then refused by the foreign key (`Runs.EmptyJoinCannotRegister`).
  `Runs.NoOrphanIff` says when a join puts its row in Device, `Runs.ForeignKeyRefusesIff` when the cached check lets
  through what the key refuses.
- The rows of a join share the primary key of Device, so a join of two or more interfaces is always refused
  (`Runs.TwoInterfacesNeverJoin`, `Runs.JoinSucceedsIff`).
- Collision avoidance looks at the table only: `Batch.AvoidingRowsMeetIff` and `Batch.MixedRowsMeetIff` say when two
  items of one request get the same identifier, and `Batch.BatchAllowedIff` that the request is then refused.
- In the broker version a select that fails passes for a free identifier (`Batch.FailedSelectRepeatsId`), so a
  collision-avoiding identifier is new if and only if no select before the one about the least free candidate fails
  (`Batch.FreshIff`); in the local version it always is (`LocalManager.LocalFlexManager.Register`).
- Joins on different bases can try the same identifier: exactly those of `Probe.LongerBaseMeetsIff` in the broker
  version and of `Probe.LongerBaseMeetsIffFlagFirst` in the local one, and none of equal length
  (`Probe.DifferentBases`). `Reserve` shows that no two joins are handed it all the same.
- The broker version refines the local one for inserts and selects only: `db_proc` has no other branch
  (`Refinement.BrokerRefinesLocal`), and where it raises the broker version reads an error.
- A reply to a query does not carry the request's `queryID` (`Runs.QueryIdEchoedIff`).
- `flexidhdr_init` truncates: lengths from 256 on mostly get an inconsistent header (`FlexHeader.InitLengthsAgreeIff`).
- `join` never deletes its two entries of `dbQuery_cache`, so the 32-bit id space allows for 2^31 joins
  (`Runs.JoinsAreLimited`).

## Model

| member | source | states |
|---|---|---|
| Broker.AlwaysCorrelated | resolver/2017/flexIDMnger.py:35-54 | in every reachable state, for any number of handlers and any losses, messages in flight have pairwise different ids, each a key of the cache still holding "None" and awaited by the handler that sent the query |
| Broker.NothingMerges | resolver/2017/flexIDMnger.py:35-48 | a message put in flight is different from all those in flight, so sets of messages lose nothing |
| Broker.ReadsOwnReply | resolver/2017/flexIDMnger.py:50-54 | between a send and its return exactly one step served this query; the handler reads that step's reply although ids are reused; with no other handler in a round trip, reply and tables are those of a direct call at the moment of sending |
| Refinement.RoundTripIsDirectCall | resolver/2017/flexIDMnger.py:35-54 | with one request thread a send and its return together serve the query once on the tables of the moment of sending, under an id that was not in the cache; the reply is in that slot and every other key of `dbQuery_cache` is as before |
| Refinement.MatchStep | resolver/2017/flexIDMnger.py:595-601 | forward simulation: each step of the broker version is no step or one finished query of a database that serves queries one by one |
| Refinement.BrokerIsSequential | resolver/2017/flexIDMnger.py:35-54 | for every run of the one-thread manager there are queries, of any kind, that served one by one give exactly the replies read, in order, and lead to the same tables |
| Refinement.BrokerRefinesLocal | resolver/2017/flexIDMnger_db.py:37-101 | every run that sends inserts and selects, the kinds `db_proc` has, is a sequence of `db_proc` calls on the same tables: a reply read has error 0 exactly where its call returns, and is then what it returns, and is a bare error exactly where its call raises |
| Refinement.RepliesCorrespond | resolver/2017/flexIDMnger_db.py:37-101 | inserts and selects served one by one against the same queries as `db_proc` calls: equal tables, and replies that correspond to what is returned or raised |
| Refinement.OneMoreCall | resolver/2017/flexIDMnger.py:595-601 | a further query works on the tables the earlier ones left and appends its reply |
| Reserve.NoTwoJoinsShareAnId | resolver/2017/flexIDMnger.py:89-98 | any interleaving of id allocations at their database round trips, any answers and any bases: reserved and issued ids are pairwise different |
| Reserve.ReissuedOnlyAfterLeave | resolver/2017/flexIDMnger.py:94-110 | an id handed out twice was given back by a leave in between |
| Reserve.LeaveDuringJoinBreaksIt | resolver/2017/flexIDMnger.py:245 | were an id given back while its join still asks, a second join would reserve it too, and the ids would no longer be pairwise different |
| Decimal.ValueOfStr | resolver/2017/flexIDMnger.py:89 | reading back `str(n)` gives n |
| Decimal.StrCanonical | resolver/2017/flexIDMnger.py:89 | `str(n)` consists of digits and has no leading zero |
| Decimal.ValueOfPad4 | resolver/2016/resolver.py:69 | reading back `"%04d" % n` gives n, past 9999 too |
| Probe.CandidateInjective | resolver/2017/flexIDMnger.py:91-93 | a probe sequence never repeats a candidate |
| Probe.AheadShrinks | resolver/2017/flexIDMnger.py:91-93 | the termination measure: the taken names still ahead become strictly fewer with every collision |
| Probe.LeastFreeExists | resolver/2017/flexIDMnger.py:106-110 | against any finite set of taken names a free candidate comes after at most as many probes as there are names |
| Probe.FreeAmongFirst | resolver/2017/flexIDMnger.py:264-280 | pigeonhole: if fewer than n of the first n candidates are taken, the first free one is among them |
| Probe.DifferentBases | resolver/2017/flexIDMnger_db.py:308-324 | equally long different bases never give the same id |
| Probe.LongerBaseMeetsIff | resolver/2017/flexIDMnger.py:89-93 | joins on a shorter and a longer base can try the same id iff the longer base is the shorter one followed by a positive number |
| Probe.LongerBaseMeetsIffFlagFirst | resolver/2017/flexIDMnger_db.py:125-129 | with the flag in front they can iff the longer base is the shorter one behind digits that denote a multiple of 4 |
| Probe.IdsMeetIffLonger | resolver/2017/flexIDMnger.py:89-93 | for any two bases and flags: the ids are equal iff the longer base goes on with the first digits of the other's flag, and its own flag is the rest of them |
| Probe.DifferentLengthBasesCanMeet | resolver/2017/flexIDMnger.py:89-93 | for example, base "a" on its tenth collision is base "a4" at once |
| JoinId.JoinIdIsLeastFree | resolver/2017/flexIDMnger.py:89-110 | what `join_genID` returns is the least candidate in neither the initial cache nor the Device table, after at most as many collisions as names are taken |
| JoinId.FoundLater | resolver/2017/flexIDMnger.py:106-110 | recursing with the grown cache from the next flag continues the same probe sequence and marks the same names |
| Manager.FlexManager.ProbeCache | resolver/2017/flexIDMnger.py:89-94 | the loop ends at the first uncached candidate and reserves it |
| Manager.FlexManager.ReserveAndAsk | resolver/2017/flexIDMnger.py:94-106 | the candidate is reserved before the database is asked, and marked afterwards either way; the answer tells whether Device has it |
| Manager.FlexManager.JoinGenID | resolver/2017/flexIDMnger.py:81-110 | terminates; candidate k, all earlier ones in the initial cache or the table; the cache gains exactly the tried names; `dbQuery_cache` and tables as before |
| Flags.GenFlag | resolver/2017/flexIDMnger.py:57-78 | raises exactly above 15; otherwise the three bit fields do not overlap and add up |
| Flags.FlagBits | resolver/2017/flexIDMnger.py:57-78 | bit 7 is the cache bit, bit 6 the segment bit, bits 5 to 2 the management number, bits 1 and 0 are clear |
| Flags.GenFlagInjective | resolver/2017/flexIDMnger.py:57-78 | the flag determines cache bit, segment bit and management number |
| Flags.StepsWithinField | resolver/2017/flexIDMnger.py:264-280 | k steps of 4 from `gen_flag(c, s, 0)` are `gen_flag(c, s, k)`, and a flag of (c, s) at all, exactly for k up to 15 |
| Flags.ManagementNumber | resolver/2017/flexIDMnger.py:264-280 | the flag probed to keeps cache and segment bits iff one of the first 16 candidates is free, which holds whenever fewer than 16 of them are taken |
| Flags.SixteenCollisionsCarry | resolver/2017/flexIDMnger.py:280 | the 16th step turns an unsegmented flag into a segmented one |
| Manager.FlexManager.RegisterGenID | resolver/2017/flexIDMnger.py:264-280 | terminates at the first candidate not in RegisterList and changes nothing |
| Batch.AttrMapAt | resolver/2017/flexIDMnger.py:347-350 | column attr(i+1) holds attribute i |
| Batch.AttrMapSize | resolver/2017/flexIDMnger.py:347-350 | there are as many attribute columns as attributes |
| Batch.AttrColumns | resolver/2017/flexIDMnger.py:347-350 | the column loop makes exactly those columns |
| Batch.Collect | resolver/2017/flexIDMnger.py:326-329 | the attribute loop appends the item's attributes and counts them |
| Batch.BatchIds | resolver/2017/flexIDMnger_db.py:376-398 | row i carries the id announced for item i and the requesting device; a collision-avoiding id whose select was answered is the least free one and was not in RegisterList before |
| Batch.BatchEntered | resolver/2017/flexIDMnger_db.py:363-398 | each row has its item's hash, type and category, names the device and carries the announced id: the hash and a flag of 128 for the cache bit, 64 for the segment bit and 4 for each collision |
| Batch.FreshIff | resolver/2017/flexIDMnger.py:264-280 | a collision-avoiding id was absent before the request iff no select about a candidate before the least free one fails |
| Batch.BatchUnique | resolver/2017/flexIDMnger.py:313-352 | request, table and failing selects determine ids and rows |
| Batch.FailedSelectRepeatsId | resolver/2017/flexIDMnger.py:264-280 | if the select about a registered id fails, the collision-avoiding item gets that id all the same |
| Batch.PerItemAttrs | resolver/2017/flexIDMnger_db.py:362-396 | in the local version the attribute columns of row i are exactly item i's attributes |
| Batch.RunningAttrs | resolver/2017/flexIDMnger.py:316-350 | in the broker version all rows carry their own item's attributes iff every item's attributes are a prefix of the attributes of the whole request |
| Batch.GatheredAt | resolver/2017/flexIDMnger.py:315-329 | in the gathered list attribute k of item i comes after all attributes of the items before |
| Batch.RunningAttrsMixUp | resolver/2017/flexIDMnger.py:316-350 | two items with one attribute each: the second row gets the first item's attribute |
| Batch.DistinctHashes | resolver/2017/flexIDMnger_db.py:377-398 | different hashes of equal length give pairwise different ids in one batch, for any flags and probe steps |
| Batch.RowsMeetIff | resolver/2017/flexIDMnger_db.py:375-384 | two items with hashes of equal length get the same id iff the hashes are equal and their probing ends at the same flag |
| Batch.RowsMeetIffLonger | resolver/2017/flexIDMnger.py:331-338 | with the flag last and hashes of any length, iff the longer hash goes on with the first digits of the other item's final flag, and its own final flag is the rest of them |
| Batch.AvoidingRowsMeetIff | resolver/2017/flexIDMnger_db.py:308-324 | two collision-avoiding items get the same id iff their hashes are equal and every candidate from the lower flag up to the higher one was registered before |
| Batch.MixedRowsMeetIff | resolver/2017/flexIDMnger_db.py:375-384 | a collision-avoiding item gets the id of one that is not iff the hashes are equal, every candidate from its flag up to the other one's was registered before, and that one was not |
| Batch.AvoidingIdsAreFresh | resolver/2017/flexIDMnger_db.py:308-324 | with every select answered, all ids of collision-avoiding items were absent from RegisterList before the request |
| Batch.BatchAllowedIff | resolver/2017/database_schema_versatile.sql:59-71 | the schema lets a batch in iff no item has more than three attributes, it is empty or its device exists, its ids are pairwise different and none is registered for the device |
| Batch.SameItemSameId | resolver/2017/flexIDMnger_db.py:308-324 | collision avoidance does not look at the batch itself: equal items get equal ids |
| Manager.FlexManager.GenerateID | resolver/2017/flexIDMnger.py:331-338 | hash and flag, probed on exactly if the item avoids collisions |
| Manager.FlexManager.BuildBatch | resolver/2017/flexIDMnger.py:313-352 | the item loop builds ids and rows matching the items in order, or fails exactly when a field is missing |
| LocalManager.LocalFlexManager.GenerateID | resolver/2017/flexIDMnger_db.py:375-382 | hash and flag, the flag in front, probed on to a free id exactly if the item avoids collisions; no id if a select raises |
| LocalManager.LocalFlexManager.BuildBatch | resolver/2017/flexIDMnger_db.py:357-398 | ids and rows match the items in order, with the attributes per item and every select answered, or the loop fails, exactly when a field is missing or a select raises |
| LocalManager.LocalFlexManager.DbInsert | resolver/2017/flexIDMnger_db.py:42-60 | inserts all rows in order, or raises and leaves the rows before the one refused; row by row the schema lets in what it lets in at once |
| LocalManager.LocalFlexManager.DbSelect | resolver/2017/flexIDMnger_db.py:67-78 | returns the rows with the given key, or raises |
| LocalManager.LocalFlexManager.ReserveAndAsk | resolver/2017/flexIDMnger_db.py:124-142 | the candidate is reserved before the select and marked after it; if the select raises it stays reserved |
| LocalManager.LocalFlexManager.JoinGenID | resolver/2017/flexIDMnger_db.py:122-146 | terminates; returns candidate k, the first in neither the initial cache nor the table, with exactly the tried names marked; or raises at candidate k, which stays at "None" in the cache |
| LocalManager.LocalFlexManager.RegisterGenID | resolver/2017/flexIDMnger_db.py:308-324 | terminates with the least candidate not in RegisterList, unless a select raises |
| LocalManager.LocalFlexManager.Register | resolver/2017/flexIDMnger_db.py:328-420 | for the device the request is about: succeeds iff the device exists, the items are complete, no select raises and the insert completes; then RegisterList grows by exactly one row for each item in order, naming that device, with the item's fields and the announced ids, which are pairwise different and, for collision-avoiding items, were in no row before; otherwise by some first rows at most, by none if a select raised; the cache learns exactly the device found; a request about nobody changes nothing |
| Tables.SelectFinds | resolver/2017/flexIDMnger_db.py:67-78 | a completed select has data iff the key is in the table; a failed one never has |
| Tables.SelectReturns | resolver/2017/flexIDMnger_db.py:67-78 | a completed select returns exactly the rows with the key |
| Tables.DeleteDeviceRemoves | resolver/2017/database_schema_versatile.sql:70 | deleting a device takes exactly the rows that name it out of all three tables and keeps the others in order |
| Tables.DeleteCascades | resolver/2017/database_schema_versatile.sql:70 | deleting a device removes exactly its id and leaves no registration without a device |
| Tables.ServeKeepsKeys | resolver/2017/database_schema_versatile.sql:16-71 | every query with every outcome the schema allows keeps primary keys unique and every neighbor and registration with a device |
| Tables.DeviceIdsAfter | resolver/2017/flexIDMnger_db.py:42-60 | what each query does to the set of device ids |
| Queries.UnusedIds | resolver/2017/flexIDMnger.py:35-39 | the cache never has more than 2^32 entries, and with fewer an unused id exists |
| Manager.FlexManager.SendDBquery | resolver/2017/flexIDMnger.py:27-54 | a fresh id whose slot holds the reply of serving the query on the present tables; nothing else changes |
| Manager.FlexManager.OnDbMessage | resolver/2017/flexIDMnger.py:595-601 | stores the reply under its query id and touches nothing else |
| Manager.FlexManager.Select | resolver/2017/flexIDMnger.py:97-104 | tells whether the key exists and leaves `dbQuery_cache` as it was |
| Manager.FlexManager.Execute | resolver/2017/flexIDMnger.py:355-360 | a statement whose slot is deleted on success and stays on an error |
| Manager.FlexManager.CheckDevice | resolver/2017/flexIDMnger.py:300-311 | cache first, then the database; a device found is cached |
| Manager.FlexManager.Join | resolver/2017/flexIDMnger.py:113-219 | the effect of a join on caches, tables and acknowledgements, for every failure on the way |
| Manager.DeviceInfo | resolver/2017/flexIDMnger.py:142-159 | one Device row per interface, failing exactly on a missing hardware address |
| Manager.NeighborInfo | resolver/2017/flexIDMnger.py:174-195 | one Neighbor row per neighbor, failing exactly on a missing list or FlexID |
| Manager.FlexManager.Leave | resolver/2017/flexIDMnger.py:223-260 | the effect of a leave, including the error answer after the row is already deleted |
| Manager.FlexManager.Register | resolver/2017/flexIDMnger.py:284-376 | the effect of a registration |
| Manager.FlexManager.Update | resolver/2017/flexIDMnger.py:380-470 | the effect of an update, for any answer to the empty query |
| Manager.FlexManager.Query | resolver/2017/flexIDMnger.py:474-540 | the effect of a query, up to its search |
| Manager.FlexManager.OnMessage | resolver/2017/flexIDMnger.py:564-592 | the dispatch: a message has the effect of the one handler its topic selects, or none |
| Requests.RequesterIff | resolver/2017/flexIDMnger.py:122-125 | the device a handler acts for is the sender if the relay is "none", the last hop of a list of hops, the last character of any other string |
| Requests.AboutNobodyIff | resolver/2017/flexIDMnger.py:122-125 | there is none exactly if the relay is missing or empty |
| Answers.NobodyAnswers | resolver/2017/flexIDMnger.py:213-219 | such a request is answered with an error and changes nothing |
| Answers.JoinReserves | resolver/2017/flexIDMnger.py:89-110 | a join's id is the base and 4k, printed; it was not cached, every smaller k was cached or in the table, and the cache gains exactly the ids up to it |
| Answers.JoinGrows | resolver/2017/flexIDMnger.py:142-204 | however far it gets, a join adds only rows that name this id, at the ends of Device and Neighbor |
| Answers.JoinAnswers | resolver/2017/flexIDMnger.py:142-219 | a successful join announces this id and has entered one row for each interface and each neighbor, in order, field by field; otherwise the answer is an error for the temporary id |
| Answers.JoinEntries | resolver/2017/flexIDMnger.py:166-204 | a join changes no entry of `dbQuery_cache`, adds at most those of its two inserts, and none only if it fails before the first |
| Answers.LeaveAnswers | resolver/2017/flexIDMnger.py:223-260 | a leave that the database completes takes exactly the rows that name the device out of all three tables, the others stay in order, and the device out of the cache; the answer is 0 iff it was cached; one that is refused changes nothing but its entry of `dbQuery_cache` |
| Answers.RegisterAnswers | resolver/2017/flexIDMnger.py:284-376 | all rows a registration enters name the device it is about; if it succeeds the device was known, there is one row for each item in order with the item's fields, and the answer announces the ids of exactly these rows |
| Answers.UpdateAnswers | resolver/2017/flexIDMnger.py:380-470 | an update succeeds iff the device is known, the content check found something, the request is complete and the statement completes; it then removes exactly the entry `id` of the request, or sets its attributes in attr1, attr2, ... and leaves all other columns and rows |
| Answers.QueryAnswers | resolver/2017/flexIDMnger.py:474-540 | a query succeeds iff the device is known and requirements are listed, and changes no table |
| Answers.EntriesAreKept | resolver/2017/flexIDMnger.py:353-360 | leaves, registrations and updates keep every entry of `dbQuery_cache`; a refused statement leaves its own, settled with an error, a successful request none |
| Topics.RouteRecovers | resolver/2017/flexIDMnger.py:564-588 | a request topic selects its handler with the device id up to the first slash, which is the id iff it has none |
| Topics.AckRecovers | resolver/2017/flexIDMnger.py:209 | the same id is recovered from the topic of the answer |
| Topics.RequestTopics | resolver/2017/flexIDMnger.py:564-588 | the topics of the five requests, part by part |
| Topics.AnswerTopics | resolver/2017/flexIDMnger.py:209-217 | the topics of the five answers, part by part |
| Topics.RouteIff | resolver/2017/flexIDMnger.py:564-592 | a topic selects a handler iff its second and third part name it and there is a fourth |
| Runs.AcksConserved | resolver/2017/flexIDMnger.py:206-219 | over every run with any errors the published topics are exactly one per request, in order, on the request's own answer topic |
| Runs.JoinSucceedsIff | resolver/2017/flexIDMnger.py:113-219 | with a database that refuses only what the schema forbids, a join succeeds iff it is complete, lists at most one interface, and its neighbors are new, pairwise different and, unless there are none, have a device to belong to |
| Runs.TwoInterfacesNeverJoin | resolver/2017/flexIDMnger.py:142-171 | whatever the database does, a join of two or more interfaces is refused and adds one Device row at most |
| Runs.RegisterSucceedsIff | resolver/2017/flexIDMnger.py:284-376 | with such a database a registration succeeds iff it is complete, no item has more than three attributes, its device is known and, unless it has no items, in the table, and the ids, which request and table determine, are pairwise different and not registered for it |
| Runs.OthersSucceedIff | resolver/2017/flexIDMnger.py:380-540 | with such a database leaves, updates and queries succeed iff they are complete and about a known device, and an update sets at most three attributes |
| Runs.KeysAlwaysHold | resolver/2017/database_schema_versatile.sql:16-71 | over every run with any errors the primary and foreign keys hold |
| Runs.CacheAlwaysAgrees | resolver/2017/flexIDMnger.py:165-171 | over every run a key of `deviceID_cache` is a Device row or an id whose join put no row there |
| Runs.JoinAgrees | resolver/2017/flexIDMnger.py:94-110 | a join keeps that agreement, with its id added if it got no row |
| Runs.LeaveAgrees | resolver/2017/flexIDMnger.py:237-245 | a leave keeps it, also when the device was not cached |
| Runs.NoOrphanIff | resolver/2017/flexIDMnger.py:142-171 | a join with answered selects gets its id into Device iff it lists interfaces, all with a hardware address, and the insert gets past its first row |
| Runs.FastPathIsSlowPath | resolver/2017/flexIDMnger.py:300-311 | when every issued id reached Device, the device check answers exactly what the select would |
| Runs.PathsDifferOnOrphans | resolver/2017/flexIDMnger.py:491-502 | in any run the cached check and the select differ only on a cached id without a row |
| Runs.RegistrationsStayLive | resolver/2017/flexIDMnger.py:284-376 | the manager's own doing: over every run on a database that checks no keys on RegisterList in which every issued id reached Device, every cached device is in the table and every registration names a live device, over every leave |
| Runs.EveryRunIsUnkeyed | resolver/2017/database_schema_versatile.sql:59-71 | the keys only take runs away |
| Runs.ForeignKeyKeepsLive | resolver/2017/database_schema_versatile.sql:70 | with the foreign key every registration names a live device over every run, also when ids did not reach Device |
| Runs.LiveWithoutKeyIff | resolver/2017/database_schema_versatile.sql:70 | without the foreign key an insert for a device would keep all registrations live iff the device exists or no row gets in |
| Runs.ForeignKeyNotNeeded | resolver/2017/flexIDMnger.py:300-311 | when every issued id reached Device, with or without the key, every row of a registration that got as far as its insert names a device in the table |
| Runs.ForeignKeyRefusesIff | resolver/2017/flexIDMnger.py:300-311 | in any run the foreign key refuses a registration that passed the device check iff it has items and its device is not in the table, which is then a cached id whose join put no row there |
| Runs.OrphanCannotRegister | resolver/2017/flexIDMnger.py:353-376 | such a registration is answered with an error and changes no table |
| Runs.EmptyJoinCannotRegister | resolver/2017/flexIDMnger.py:300-311 | a join without interfaces and neighbors succeeds, its id passes the cached device check, and every registration under it is refused |
| Runs.SlotsAfterSuccess | resolver/2017/flexIDMnger.py:167-172 | successful leaves, registrations, updates and queries restore `dbQuery_cache`; a successful join adds exactly two settled entries |
| Runs.SlotsCountJoins | resolver/2017/flexIDMnger.py:199-204 | over runs of successes the number of entries is the initial one plus twice the joins |
| Runs.JoinsAreLimited | resolver/2017/flexIDMnger.py:35-39 | at most 2^31 joins can succeed in one process, since each keeps two of the 2^32 ids |
| Runs.QueryIdEchoedIff | resolver/2017/flexIDMnger.py:491-527 | a reply carries the request's query id iff the handler failed before its first database query |
| HeaderCodec.DecodeEncode | flexid/flexidhdr_fn.c:25-43 | decoding the bytes of a header followed by anything gives the header |
| HeaderCodec.FieldPositions | flexid/flex_id.h:11-25 | every field sits at its offset in the struct, 16-bit fields in the host's byte order, the addresses from byte 16 on |
| HeaderCodec.EncodeDecode | flexid/flexidhdr_fn.c:25-43 | re-encoding a decoded buffer gives its first 16 + 2 * hash_len bytes |
| HeaderCodec.EncodePrefixFree | flexid/flexidhdr_fn.c:25-43 | the bytes determine the header and where it ends |
| HeaderCodec.HostsMustAgree | flexid/flexidhdr_fn.c:27 | between hosts of different byte order a header survives iff its 16-bit fields read the same both ways |
| FlexHeader.Memcpy | flexid/flexidhdr_fn.c:27-29 | the bytes at the offset are the source's, all others stay |
| FlexHeader.Flexhdr.Init | flexid/flexidhdr_fn.c:3-11 | the two lengths, truncated to their fields, and two fresh addresses |
| FlexHeader.InitLengthsAgreeIff | flexid/flexidhdr_fn.c:3-11 | `header_len` is the number of bytes written, at most 526, for every length up to 255, and beyond iff the length modulo 0x8000 is below 0x100 |
| FlexHeader.Flexhdr.HaveMoreFrag | flexid/flexidhdr_fn.c:21-23 | 1 iff bit 13 is set |
| FlexHeader.Flexhdr.Serialize | flexid/flexidhdr_fn.c:25-32 | a fresh buffer of `header_len` bytes that starts with the encoding, exactly when that is enough for it |
| FlexHeader.Flexhdr.Deserialize | flexid/flexidhdr_fn.c:34-43 | a fresh header that decodes the buffer |
| FlexHeader.ReceiveLoop | flexid/client.c:35-42 | the buffer starts with all chunks up to the end of the stream, in order; nothing on an error; it runs past the buffer exactly when the chunks exceed 1000 bytes |
| FlexHeader.ReceivedUpTo | flexid/client.c:35-42 | with chunks only before event e, the bytes are those chunks in order if e is the end of the stream, and there are none if it is an error |
| FlexHeader.ClientReceive | flexid/client.c:32-45 | if the received bytes start with a header's encoding, that header comes out |
| FlexHeader.AnyChunking | flexid/client.c:32-42 | for every chunking of a header's bytes the loop puts them together within the buffer |
| FlexHeader.Transfer | flexid/server.c:49-52 | what the server serializes and sends, however cut, is the header the client gets |
| Resolver.NewDeviceIdIsNew | resolver/2016/resolver.py:29-34 | the largest id plus one is above every id in the table |
| Resolver.NewDeviceIdIsNext | resolver/2016/resolver.py:29-34 | the new id is "1" for an empty table, else exactly one more than the largest id there |
| Resolver.AlwaysReferential | resolver/2016/resolver.py:97-123 | over every run, from empty tables or those of an earlier process, each service belongs to a device |
| Resolver.JoinInheritsNothing | resolver/2016/resolver.py:29-34 | in every state of every such run neither table knows the id the next join hands out |
| Resolver.LargestIdIsReused | resolver/2016/resolver.py:144-146 | when the device that joined last leaves, the next join gets its id |
| Resolver.ServiceIdsDistinct | resolver/2016/resolver.py:66-81 | ids of known types made at different counter values differ, and from an unknown type's |
| Resolver.ServiceIdDigits | resolver/2016/resolver.py:66-83 | the first digit is 1 for Web and Voice, the last for Voice and FileTransfer, else 0, and the counter is in between; an unknown type gives 1 |
| Resolver.ServiceTableIdsDistinct | resolver/2016/resolver.py:108-123 | over every run of one process that started without services no two of them share an id, at least one being of a known type |
| Resolver.FlaskResolver.GenServiceID | resolver/2016/resolver.py:66-83 | counts up and makes the id of the new counter value |
| Resolver.FlaskResolver.Join | resolver/2016/resolver.py:24-63 | the id is "1" for an empty table, else one more than the largest there; one row for each listed interface under it, field by field, when the request is complete and no statement raises, else no change |
| Resolver.FlaskResolver.MakeEntries | resolver/2016/resolver.py:108-123 | one entry per service in order, each with the id of its own counter value, up to the first that raises |
| Resolver.FlaskResolver.Update | resolver/2016/resolver.py:88-130 | entries for the requested services in order, numbered from the counter, only for an existing device |
| Resolver.UpdateAdds | resolver/2016/resolver.py:108-123 | a successful update adds one service for each requested one, in order, of this device, with its type, attributes and the id of the next counter value |
| Resolver.FlaskResolver.Leave | resolver/2016/resolver.py:136-151 | removes exactly the device's rows from both tables, or nothing |

## Left out

- Manager.FlexManager.SendDBquery: draws some unused id in one step; the loop of random draws ends only by chance, and with all 2^32 ids in use never, so an unused id is required.
- Manager.FlexManager.OnMessage: JSON and byte decoding are not modelled; a message carries its fields, or none.
- Manager.FlexManager.Query: the search is a placeholder in the source and its fixed result is not modelled.
- Manager.FlexManager.JoinGenID: recurses as deep as there are collisions with the table; Python gives up at a depth of about 1000 with an exception that the handler answers with an error. The same holds for both `RegisterGenID` and the local `JoinGenID`.
- LocalManager.LocalFlexManager.DbInsert: rows and their order, not the SQL text, quoting or escaping.
- LocalManager.LocalFlexManager.DbSelect: the fixed answer for category 'Sensor' is left out; no modelled query has a category.
- Resolver.FlaskResolver.Update: the columns added by `ALTER TABLE` are an attribute list; how much of a failed update they commit is left open.
- Resolver.ServiceTableIdsDistinct: a restarted process counts from 1 again over the old tables and repeats ids; the run of one process is modelled.
- Liveness: a lost reply leaves its handler spinning for ever; only safety is proved.
- The local manager's `join`, `leave`, `update` and `query`: as in the broker version, except that its `join` does not print the interfaces and so accepts one without a hardware address, and that `db_proc` has no delete or update, so that `leave` and `update` always end in their error branch.
- The QosRequirements table, `Request` of the 2016 resolver, `resolver_per.py`: not used by the modelled requests, placeholder choices, and the same logic over another transport.
- MQTT, Flask, MySQL and socket set-up, printing and time stamps: input and output only.
- `socket/`, `app/`, `test_app/`, `wireshark/`, `raw_sock/` and `client/`: stubs, fixed-size packets and demo scripts, which would add only easy members.
