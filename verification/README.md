# A verified model of mnemiq's graph, protocol and bookkeeping code

mnemiq answers questions over SQL sources and ships scripts that prepare warehouses for it. This project models, in
Dafny, the parts of it whose correctness is a statement about whole runs or about all inputs, and proves those
statements.

- **Foreign-key type alignment** (`column_types`, `components`, `recast_plan`, `recast_planner`, `recast_effect`,
  `recast_warehouse`, `recast_run`, and `cast_counts` for what a probe counts). A union-find with path halving
  groups the columns foreign keys join; each component with a numeric member gets one target type; a component is
  probed whole and then rewritten, table by table, on a warehouse that may fail any statement. The plan is specified
  without the union-find, as one entry per class of the equivalence closure of the keys. Results: the union-find
  computes that plan; no run, whatever fails in it, loses or rounds a value; the plan ignores the order and
  direction of the keys; exit status 0 means no agreeing pair was broken, and status 1 is returned exactly when a
  component was left partly written.
- **Oracle synonyms** (`oracle_names`, `link_closure`, `synonym_reach`, `name_resolution`, `synonym_resolution`).
  The frontier loop is the least closed set; the restricted read of functions loses no alias; and a name is handed
  to Oracle's resolver only if resolving it crosses no database link in any dictionary of which the session sees the
  part it sees.
- **The two-clock read-only assurance** (`assurance`, `assurance_events`). The fields are shown to be what the
  history of a run says; from that follow the cadence of probes and of reports for every monotone run.
- **Connection leases** (`leases`, `lease_races`, `lease_code`, `cursor_retry`). The lease protocol is a state
  machine whose steps interleave freely with those of other operations, the pool's housekeeping and sessions that
  die; a write of the timeout and the health check before it are two steps. `lease_races` says when a session dies
  between them; `lease_code` is the lease's own statements in order, with arbitrary steps of others between any two.
- **Relationship splicing** (`splicing`), **table selection under a cap** (`table_selection`), and the paths both
  need (`graphs`).
- **Text scanners**: the password pass of the credential scrubber (`redact`, `redact_fields`, `redact_values`) and
  the grammar of a printed `sample_values` clause (`sample_values`).
- **The answer loop** (`agent_turn`, `agent_record`, `agent_loop`) and the clustering its vote rests on
  (`result_clusters`). The model, source, verifier and selector are functions of everything asked so far, so each
  may answer adaptively. A turn keeps a record; each event in it is proved to be what the world answered to the
  record before it, an approved statement is proved to be fetched next, and the record decides how the turn may end.
- **Pairwise alignment** (`pair_alignment`), **the retrying and caching judge** (`judge_cache`), and **the result
  vote and its tally** (`result_vote`, `run_tally`).

Databases, models and clocks are parameters: a fault script indexed by call, or a function of the history.
`ordering` holds the orders Python's `sorted` uses; `characters` and `options` are small shared pieces. Code that
changes state step by step is written as methods and classes and proved against specification functions or
predicates; the whole-run properties are lemmas about those.

## Where the code and its comments differ

The model follows the code. In each case a lemma gives an input and another says exactly when the comment holds.

- `scripts/add_relationships_spider2.py:59-62` says that where two columns of a table are referenced only the first
  can be the key. A declared primary key that is referenced first loses to the next referenced column
  (`Splicing.DeclaredKeyCanLose`, `Splicing.FirstIsKeyExactlyWhen`).
- `scripts/align_fk_types_snowflake.py:60-65` says widening cannot lose a value. Precision is widest in its family,
  but the digits before the point can shrink (`ColumnTypes.WidestCanLoseWholeDigits`). Nothing is narrowed exactly
  when one offered type of the chosen family has at least the digits of every other before the point and after it
  (`ColumnTypes.NothingNarrowedExactlyWhen`).
- `src/mnemiq/adapters/oracle.py:1817-1823` says no `call_timeout` write reaches an unhealthy connection. One whose
  session dies between the check and the write does (`LeaseRaces.WriteCanReachTheDead`), and only such a one
  (`LeaseRaces.DeadIsWrittenExactlyWhen`).
- `src/mnemiq/adapters/oracle.py:428-432` says the probe hands the connection back exactly as it found it. A session
  that dies between the two writes keeps the probe's bound into the body (`Leases.ProbeBoundCanStay`,
  `Leases.BodyBeginsBounded`).
- `scripts/align_fk_types_snowflake.py:293-294` folds database names to schemas, and two names that fold together
  share one. For any such names there are keys and types on which a run where nothing fails ends with status 0 and
  parts two columns that agreed (`RecastRun.RunFoldedNames`). Status 0 keeps agreement, for all keys, types and
  faults, exactly when no two names fold together (`RecastRun.StatusZeroKeepsExactlyWhen`).
- A pair aligned by `scripts/infer_keys_spider2.py:214-283` can be parted by a later pair
  (`PairAlignment.LaterPairCanUndo`); `PairAlignment.LaterPair` says exactly when it is.

## Model

| member | source | states |
|---|---|---|
| ColumnTypes.RenderRoundTrip | scripts/align_fk_types_snowflake.py:41-43 | Reading the digits of a rendered `NUMBER(p,s)` gives back `p` and `s`, and it is numeric and of the first family. |
| ColumnTypes.RankOrder | scripts/align_fk_types_snowflake.py:54-73 | The numeric rank is a total order on type names, so the choice does not depend on input order. |
| ColumnTypes.Choose | scripts/align_fk_types_snowflake.py:139-142 | The target is one of the offered numeric types and ranks before every other. |
| ColumnTypes.ChosenIsWidest | scripts/align_fk_types_snowflake.py:60-65 | Within the chosen family no offered type declares more digits. |
| ColumnTypes.ChosenHasMostDecimals | scripts/align_fk_types_snowflake.py:60-73 | Of those of its family as wide, no offered type has more digits after the point than the chosen one. |
| ColumnTypes.IntegersOutrankFloats | scripts/align_fk_types_snowflake.py:47-58 | `NUMBER`, integer and `FLOAT` types are numeric, and the first two rank before the last, whatever their digits. |
| ColumnTypes.WidestCanLoseWholeDigits | scripts/align_fk_types_snowflake.py:60-72 | `NUMBER(12,4)` is chosen over `NUMBER(11,0)` and holds fewer digits before the point. |
| ColumnTypes.NothingNarrowedExactlyWhen | scripts/align_fk_types_snowflake.py:60-72 | The chosen type holds every offered type of its family, before the point and after it, exactly when some offered type of that family holds all the others. |
| ColumnTypes.OneScaleLosesNothing | scripts/align_fk_types_snowflake.py:60-72 | With one scale among the offered types, as in keys of whole numbers, the chosen one holds as many whole digits as any of its family. |
| Components.UnionFind.Find | scripts/align_fk_types_snowflake.py:108-113 | Path halving ends, returns the end of the key's links, and moves no key to another class. |
| Components.UnionFind.Union | scripts/align_fk_types_snowflake.py:115-123 | Exactly the two classes are joined, their end is the lesser of the two ends, and no other key's end moves. |
| Components.Halving | scripts/align_fk_types_snowflake.py:110-112 | A halving step keeps links from climbing and keeps where every key ends. |
| Components.Linking | scripts/align_fk_types_snowflake.py:117-123 | Linking the greater root to the lesser keeps the forest and joins exactly those classes. |
| RecastPlan.PlanIgnoresOrder | scripts/align_fk_types_snowflake.py:76-102 | Reordering, repeating or flipping the foreign keys leaves the plan as it was. |
| RecastPlan.MovesExactly | scripts/align_fk_types_snowflake.py:143-146 | An entry recasts exactly the members not yet at the target, each to the target. |
| RecastPlan.RootOf | scripts/align_fk_types_snowflake.py:133-138 | Every key column is in the class of a root that is its least member. |
| RecastPlan.OneRoot | scripts/align_fk_types_snowflake.py:133-138 | Two roots in one class are the same column. |
| RecastPlan.KnownInAnyCase | scripts/align_fk_types_snowflake.py:125-131 | A key finds the stored columns it names in whatever case it names them. |
| RecastPlanner.UniteKeys | scripts/align_fk_types_snowflake.py:125-131 | After the loop over the keys the dictionary's classes are those of the equivalence closure of the keys between known columns. |
| RecastPlanner.Collect | scripts/align_fk_types_snowflake.py:133-135 | Each component's list holds its class's columns, each once. |
| RecastPlanner.BuildEntry | scripts/align_fk_types_snowflake.py:139-148 | The entry built member by member is the specified one, empty where nothing moves. |
| RecastPlanner.PlanRecasts | scripts/align_fk_types_snowflake.py:76-149 | The union-find planner computes the plan specified class by class. |
| RecastEffect.Target | scripts/align_fk_types_snowflake.py:98-102 | A component's target is the least by rank of its members' numeric types. |
| RecastEffect.EntryExactly | scripts/align_fk_types_snowflake.py:137-149 | A component's entry recasts a column exactly if it is a member of a component with a numeric member and not at the target. |
| RecastEffect.ReplayInside | scripts/align_fk_types_snowflake.py:198-234 | After any set of tables was written, a member is at the target exactly if its table was written and it was planned. |
| RecastEffect.ReplayOutside | scripts/align_fk_types_snowflake.py:198-234 | A column no component recasts keeps its type, whatever was written. |
| RecastEffect.WholeReplay | scripts/align_fk_types_snowflake.py:152-161 | A component written whole or not at all leaves all its members at the target or all as they were. |
| RecastEffect.AgreementKept | scripts/align_fk_types_snowflake.py:76-89 | If each component was written wholly or not at all, a key whose ends agreed still has ends that agree. |
| RecastEffect.EverythingSettles | scripts/align_fk_types_snowflake.py:98-102 | The whole plan brings a component with a numeric member to one type and leaves an all-text one alone. |
| RecastEffect.NumericKeysAgree | scripts/align_fk_types_snowflake.py:79-96 | After the whole plan the ends of every key in a component with a numeric member agree on a numeric type. |
| RecastEffect.ReplanIsEmpty | scripts/align_fk_types_snowflake.py:137-149 | Planning again after the whole plan was carried out gives nothing. |
| RecastEffect.AllTextPlansNothing | scripts/align_fk_types_snowflake.py:99-100 | Where no key column is numeric, nothing is planned. |
| RecastEffect.SharedSchemaBreaksAgreement | scripts/align_fk_types_snowflake.py:293-300 | Two keys planned one after the other on one schema: the first plans nothing, and the second, written whole, parts the columns the first joins. |
| RecastRun.NothingLossy | scripts/align_fk_types_snowflake.py:152-195 | The list is empty exactly when every planned cast was answered and no answer refused it. |
| RecastRun.RefusesExactly | scripts/align_fk_types_snowflake.py:190-194 | An answer refuses a cast exactly when the cast would turn a value into NULL, or round one to a `NUMBER`. |
| RecastRun.LossyExactly | scripts/align_fk_types_snowflake.py:175-195 | The list names a planned cast exactly when its probe raised or the cast would lose or round one of the values that stand there. |
| RecastRun.ProbeComponent | scripts/align_fk_types_snowflake.py:152-195 | Every planned cast is asked about, that column of that schema to that type, table by table and name by name in order, one statement each; the list is those whose answer refuses, in that order; each answer counts the values as they stand, or raised; nothing else is sent. |
| RecastRun.PlannedOnce | scripts/align_fk_types_snowflake.py:166-195 | The casts probed are exactly those the component plans, each once. |
| RecastRun.BuildRewrites | scripts/align_fk_types_snowflake.py:237-268 | The rewrites are the component's tables in order with their planned casts, or nothing where a read failed; only reads are sent. |
| RecastRun.ExecuteRewrites | scripts/align_fk_types_snowflake.py:219-234 | Written, failed and unattempted tables are the planned ones in order, exactly the rewrites of the written and the failed are sent, and the types are those of writing the written ones. |
| RecastRun.ApplyComponent | scripts/align_fk_types_snowflake.py:198-234 | Any fault leaves an exact account of the component and changes only its written tables. |
| RecastRun.SplitIsPartial | scripts/align_fk_types_snowflake.py:319-331 | The split condition of the run holds exactly when some but not all planned tables were written. |
| RecastRun.AlignComponent | scripts/align_fk_types_snowflake.py:300-314 | A component is skipped unwritten exactly if the probe lists anything, else applied and accounted for, and written whole if nothing fails; all its probes come before its first rewrite; every value there was is there after it. |
| RecastRun.ComponentCertified | scripts/align_fk_types_snowflake.py:164-234 | Where no probe of a component refused, each cast in each of its rewrites is one that was asked about before it, same column and same type. |
| RecastRun.WrittenWasProbed | scripts/align_fk_types_snowflake.py:300-314 | For each table written there is the rewrite that was sent, and before it every cast its component plans was asked about in that schema, and no answer refused. |
| RecastRun.AlignEntries | scripts/align_fk_types_snowflake.py:300-331 | Each planned component has one report; its planned casts were asked about in this run, and rewrites of it were sent only after them; every rewrite is certified; the types are those of replaying the reports. |
| RecastRun.AlignSchema | scripts/align_fk_types_snowflake.py:293-331 | A schema's reports are of the plan its keys and types give, every component probed and every rewrite certified, and the schema is left as replaying them says. |
| RecastRun.AlignAll | scripts/align_fk_types_snowflake.py:291-361 | However the run ends, for every script of faults, each column's values after it are those before it cast in turn with none lost and none rounded to a `NUMBER`, and each cast of each rewrite was asked about earlier and not refused. Exit status 1 exactly when some component of some schema has some but not all of its tables rewritten; the schemas, shared or not, are left where replaying the databases' reports in order puts them; a run in which nothing fails rewrites all it planned. |
| RecastWarehouse.EntryPreserves | scripts/align_fk_types_snowflake.py:237-268 | Rewriting any of a component's tables loses no value where its probed casts lose none. |
| RecastWarehouse.PreservedIsThere | scripts/align_fk_types_snowflake.py:60-65 | Where a run only casts so, every value that was there before it is there after it, in every column of every schema, and no NULL becomes a value. |
| RecastRun.CleanRunAligns | scripts/align_fk_types_snowflake.py:79-102 | After a run in which nothing fails, both columns of every key in a component with a numeric member have one numeric type. |
| RecastRun.StatusZeroKeepsAgreement | scripts/align_fk_types_snowflake.py:344-361 | With status 0, and names that fold to different schemas, every pair of known columns a key joins that agreed before the run agrees after it, for every script of faults. |
| RecastRun.StatusZeroKeepsExactlyWhen | scripts/align_fk_types_snowflake.py:281-361 | For a set of database names: status 0 keeps agreement whatever the keys, types and faults exactly when no two of the names fold to one schema. |
| RecastRun.RunFoldedNames | scripts/align_fk_types_snowflake.py:281-361 | For any names of which two fold together, a run in which nothing fails ends with status 0 and leaves a key that agreed with ends that do not. |
| OracleNames.Chunks | src/mnemiq/adapters/oracle.py:1754-1757 | The batches joined are the items in order; none is empty or over the size, and all but the last are full. |
| LinkClosure.Round | src/mnemiq/adapters/oracle.py:866-882 | The two chunked reads of a round find exactly the synonyms the frontier claims. |
| LinkClosure.SynonymsReachingALink | src/mnemiq/adapters/oracle.py:853-885 | The frontier loop ends, cycles included, with the least set holding every link synonym and whatever it claims. |
| SynonymReach.ReadRows | src/mnemiq/adapters/oracle.py:1034-1093 | The rows become the local edges, a later row replacing an earlier one, and the link aliases. |
| SynonymReach.BuildAdjacency | src/mnemiq/adapters/oracle.py:1102-1110 | The two dictionaries hold exactly the hops, the PUBLIC ones included, forwards and backwards. |
| SynonymReach.Spread | src/mnemiq/adapters/oracle.py:1112-1121 | The walk ends and returns exactly what the seeds reach. |
| SynonymReach.BackwardsIsForwards | src/mnemiq/adapters/oracle.py:1157-1168 | What the backward walk from some ends reaches is what has a forward path to one of them. |
| SynonymReach.OwnersToAsk | src/mnemiq/adapters/oracle.py:1123-1137 | The owners asked about are those this schema's aliases reach and those outside Oracle's own schemas that an alias targets. |
| SynonymReach.ReadFunctions | src/mnemiq/adapters/oracle.py:1140-1156 | The batches read exactly the functions of the owners asked about. |
| SynonymReach.SynonymsReachingFunctions | src/mnemiq/adapters/oracle.py:1034-1210 | The two returned sets are disjoint, together the names of the reported aliases, and a name that is both resolves. Every returned name is an alias's with a chain to a function or an unprovable name, and no alias of this schema whose own chain ends so is missing. |
| SynonymReach.OwnChainsAreReported | src/mnemiq/adapters/oracle.py:1123-1133 | Every alias of this schema whose own chain ends at a function or over a link is reported: the restricted read loses none. |
| SynonymReach.ReportsHaveAChain | src/mnemiq/adapters/oracle.py:1176-1194 | Every reported alias has a forward path, PUBLIC fallback included, to a function or to a name no local walk can settle. |
| SynonymReach.PublicArmIsExact | src/mnemiq/adapters/oracle.py:1169-1174 | A PUBLIC alias is reported exactly when its chain ends at a function outside Oracle's own schemas or at such a name. |
| SynonymResolution.ResolutionFollowsHops | src/mnemiq/adapters/oracle.py:1102-1110 | Whatever Oracle's resolution of a name arrives at, its PUBLIC fallback at any hop included, the walk's hops lead to. |
| SynonymResolution.CrossingIsUnprovable | src/mnemiq/adapters/oracle.py:1157-1168 | Whatever resolves over a link, the hops lead from to a name the walk takes as unprovable. |
| NameResolution.OutOfSight | src/mnemiq/adapters/oracle.py:887-928 | The hop-by-hop walk ends and answers True exactly when it meets a link or a name it is not shown. |
| NameResolution.NotHiddenIsSafe | src/mnemiq/adapters/oracle.py:887-905 | If the walk over the visible part meets nothing hidden, resolving the name over the whole dictionary crosses no link. |
| NameResolution.CrossingIsClaimed | src/mnemiq/adapters/oracle.py:853-864 | Where the whole dictionary is seen, the closure holds every synonym whose resolution crosses a link at any hop, or the PUBLIC one a name without one falls back to. |
| NameResolution.NamesOutOfSight | src/mnemiq/adapters/oracle.py:818-828 | Exactly the candidate names that reach a link, or whose walk goes out of sight, are refused. |
| NameResolution.ResolveCandidates | src/mnemiq/adapters/oracle.py:797-851 | The resolver, callable only on names that cross no link in any dictionary this session sees part of, is called only on such; the inventory holds each candidate's verdict, and a name defined anywhere is not also unresolvable. |
| NameResolution.DefinedIsLocal | src/mnemiq/adapters/oracle.py:831-851 | A name reported as defined is the schema's own function, or an alias the resolver puts on a local object, not Oracle's own for a PUBLIC one, and that crosses no link in any dictionary this session sees part of. |
| NameResolution.CountedIsDefined | src/mnemiq/adapters/oracle.py:840-851 | A candidate that is not refused and that the resolver puts on a local object has its name defined: an alias of the schema on any, a PUBLIC one on any but Oracle's own. |
| NameResolution.UnresolvableHasACause | src/mnemiq/adapters/oracle.py:831-851 | An unresolvable name has a candidate that is refused, not found or over a link, is no function of the schema's own, and has no candidate that counts. |
| NameResolution.NotPlacedIsReported | src/mnemiq/adapters/oracle.py:831-851 | A candidate that is refused, not found or over a link has its name reported, as unresolvable unless another defines it. |
| NameResolution.CrossingIsUnresolvable | src/mnemiq/adapters/oracle.py:831-851 | A candidate that may cross a link is never why a name is defined, and its name is always reported. |
| NameResolution.DroppedIsHarmless | src/mnemiq/adapters/oracle.py:831-851 | A candidate left out of both lists was not refused, and resolves to what is no PL/SQL or, for a PUBLIC alias, to Oracle's own. |
| Assurance.ReadOnlyWatch.Recheck | src/mnemiq/adapters/oracle.py:387-472 | The method's fields, notes and raising are those of one step on values, for every outcome of the probe. |
| Assurance.ReadOnlyWatch.RecordConstrained | src/mnemiq/adapters/oracle.py:474-494 | A confirmed check sets both clocks and the basis and ends the incident. |
| Assurance.ReadOnlyWatch.ReportUnverified | src/mnemiq/adapters/oracle.py:496-552 | A line is written exactly when one is due, with the incident's length and the age of the last check. |
| Assurance.RunTells | src/mnemiq/adapters/oracle.py:412-426 | Over any run the fields are what its history says, and a failure is logged exactly if it opens its incident or its line is due. |
| Assurance.RunSpaced | src/mnemiq/adapters/oracle.py:424-426 | Over any monotone run, lease probes are at least the cadence apart. |
| Assurance.OpeningIsReported | src/mnemiq/adapters/oracle.py:535-539 | The first failure of every incident is logged. |
| Assurance.LinesApart | src/mnemiq/adapters/oracle.py:525-534 | Two lines of one incident are at least `min(2*TTL, 3600)` seconds apart. |
| Assurance.LinesDouble | src/mnemiq/adapters/oracle.py:517-534 | While an incident is at most 3600 seconds old, its next line waits until it is at least twice as old. |
| Assurance.SilenceIsBounded | src/mnemiq/adapters/oracle.py:527-534 | A failure met in silence is less than 3600 seconds after the last line. |
| Assurance.NextLineInTime | src/mnemiq/adapters/oracle.py:1432-1438 | If failures of an incident are at most `g` seconds apart, each of its lines comes less than `3600 + g` seconds after the one before. |
| Assurance.LinesAreFew | src/mnemiq/adapters/oracle.py:517-522 | An incident with `n` lines has lasted at least `n - 1` times `min(2*TTL, 3600)` seconds at the last, however often it is probed. |
| Assurance.LeaseIsCurrent | src/mnemiq/adapters/oracle.py:405-426 | After a lease that still stands on `constrained`, a probe was begun less than one cadence before it. |
| Assurance.AgeIsTheLastChecks | src/mnemiq/adapters/oracle.py:414-422 | The assurance clock is the time of the last check that ran to its end; failures never move it or the basis. |
| Assurance.LapseStays | src/mnemiq/adapters/oracle.py:402-410 | Once lapsed, no lease probes, notes or changes anything until a boot's own check. |
| AssuranceEvents.RunEstablishes | src/mnemiq/adapters/oracle.py:402-472 | After any events the attempt clock is the last boot or probing lease, the assurance clock and the basis are those of the last boot, refused probe or answered one, and an incident is open exactly if a probe has failed since the last confirmation; which leases probe is said from the events alone. |
| AssuranceEvents.NothingEstablished | src/mnemiq/adapters/oracle.py:430-463 | A probe that has no cursor, fails or does not close moves neither the assurance clock nor the basis; one that failed is reported as failed. |
| AssuranceEvents.FailuresRenewNothing | src/mnemiq/adapters/oracle.py:500-512 | However long a probe fails for, the check it stands on is never renewed. |
| AssuranceEvents.LapsesExactlyWhen | src/mnemiq/adapters/oracle.py:464-466 | The basis lapses at a lease exactly when it probes and the database answers. |
| AssuranceEvents.RaisesExactlyWhen | src/mnemiq/adapters/oracle.py:433-463 | A check raises into its lease exactly when it probes and has no cursor or does not close it. |
| Leases.MoveFits | src/mnemiq/adapters/oracle.py:344-385 | Every step of a lease leaves its connection with the bound its stage calls for. |
| Leases.StepKeepsSafe | src/mnemiq/adapters/oracle.py:344-385 | Every step of every operation, of the pool and of a dying session keeps ownership, idle bounds and the counts. |
| Leases.ReachableIsSafe | src/mnemiq/adapters/oracle.py:297-385 | Every state any interleaving reaches is safe. |
| Leases.ReturnedExactlyOnce | src/mnemiq/adapters/oracle.py:369-385 | A connection an operation had was taken once, and given back once exactly when the operation has finished. |
| Leases.HeldByOne | src/mnemiq/adapters/oracle.py:297-304 | No connection is in two operations' hands, or in one's and in the pool's. |
| Leases.IdleCarriesNoBound | src/mnemiq/adapters/oracle.py:305-311 | Every idle pooled connection carries `call_timeout` 0. |
| LeaseRaces.DeadIsWrittenExactlyWhen | src/mnemiq/adapters/oracle.py:1807-1839 | Over every interleaving, a write reaches a session the driver calls unhealthy exactly when that session died between the write's own check and the write. |
| LeaseRaces.WriteCanReachTheDead | src/mnemiq/adapters/oracle.py:1830-1839 | Five steps: a session dies after its check and the bound is written to it. |
| Leases.QuietPoolHasEverything | src/mnemiq/adapters/oracle.py:353-385 | When every operation has finished, every connection is idle in the pool or dropped. |
| Leases.OwnErrorEscapes | src/mnemiq/adapters/oracle.py:369-383 | How a lease's body ended is how the operation ends, whatever its cleanup meets. |
| Leases.BodyBeginsBounded | src/mnemiq/adapters/oracle.py:428-463 | A body begins under its own bound exactly when the probe's was taken off again, its check passed and the write not refused, or never took. |
| Leases.ProbeBoundCanStay | src/mnemiq/adapters/oracle.py:428-463 | A session that dies while probed leaves an unbounded body the probe's bound. |
| Leases.CleanupReturns | src/mnemiq/adapters/oracle.py:369-385 | The cleanup gives the connection back if it takes the reset and drops it exactly if it does not. |
| LeaseCode.Pool.Acquire | src/mnemiq/adapters/oracle.py:344-352 | Acquiring gives the operation its connection, or ends it with the error the pool raised, which is the wait's where none was to be had. |
| LeaseCode.Pool.Write | src/mnemiq/adapters/oracle.py:1835-1839 | A bound is written in two steps, the check and the write, with any steps of others before and between; the write goes ahead exactly on what the check found. |
| LeaseCode.Pool.Recheck | src/mnemiq/adapters/oracle.py:424-463 | The check's own steps are the script's; the body follows exactly where the check lets nothing out, and else that error goes to the cleanup. |
| LeaseCode.Pool.Inside | src/mnemiq/adapters/oracle.py:355-367 | The bound, the check and the body are taken in that order, each only where what is before it let nothing out; the body runs exactly where the bound took and the check let nothing out, and what leaves is its ending or the error that kept it from running. |
| LeaseCode.Pool.Cleanup | src/mnemiq/adapters/oracle.py:368-385 | The cleanup finishes the operation with the ending it had, whether or not the reset is taken. |
| LeaseCode.Pool.Lease | src/mnemiq/adapters/oracle.py:344-385 | One lease among any others takes exactly the script's steps, in order, under its own bound: acquire, bound, check, body, reset, return. Its body runs exactly where a session was had, the bound took and the check let nothing out; it always finishes, as its body did if that ran, and else with the error that kept it from running. |
| CursorRetry.WithCursor | src/mnemiq/adapters/oracle.py:609-651 | The attempts are the first ones up to one that is not retried, at most four; work runs once in each, at most once if writable; the last decides. |
| Splicing.ChooseKeys | scripts/add_relationships_spider2.py:63-67 | The loop gives each parent the first referenced column, unless that is the declared key and another column is referenced. |
| Splicing.ChosenIsReferenced | scripts/add_relationships_spider2.py:59-67 | The chosen key is always a column some foreign key references. |
| Splicing.FirstIsKeyExactlyWhen | scripts/add_relationships_spider2.py:59-67 | The first referenced column is the key exactly where it is not the declared key or is the only one referenced. |
| Splicing.DeclaredKeyCanLose | scripts/add_relationships_spider2.py:59-67 | A declared key that is referenced first loses to the second referenced column. |
| Splicing.Leads | scripts/add_relationships_spider2.py:88-98 | The stack search ends and decides whether a path exists. |
| Splicing.KeptIsAcyclic | scripts/add_relationships_spider2.py:101-109 | The relationships kept are acyclic, self-references included. |
| Splicing.LeftOutClosesACycle | scripts/add_relationships_spider2.py:104-109 | A key that targets its parent's chosen column and is left out would close a cycle in the final relationships. |
| Splicing.KeptIsDeclarable | scripts/add_relationships_spider2.py:102-103 | Every relationship is one of the keys and targets the column its parent declares. |
| Splicing.CandidatesDiffer | scripts/add_relationships_spider2.py:110-114 | The names tried for one relationship are all different. |
| Splicing.FreshName | scripts/add_relationships_spider2.py:110-115 | The suffix loop ends, with the first name tried that is not taken. |
| Splicing.Splice | scripts/add_relationships_spider2.py:85-118 | The lines are the keys, put in sorted order, that the loop keeps, under pairwise different names; each is one of the keys given and targets its parent's declared column; none are written exactly when none are kept. |
| Redact.FindValueEnd | src/mnemiq/redact.py:64-87 | The three scans compute the end each value grammar gives. |
| Redact.SpansInOrder | src/mnemiq/redact.py:46-61 | The spans replaced are in bounds, not empty, disjoint and increasing. |
| Redact.ScrubPasswords | src/mnemiq/redact.py:43-61 | The password pass writes `***` for exactly those spans and changes nothing else. |
| RedactFields.SecretMeans | src/mnemiq/redact.py:12-13 | A word names a password exactly if `password`, `passwd` or `pwd` ends it, in any case. |
| RedactFields.SpansExactly | src/mnemiq/redact.py:39-61 | What is replaced is exactly the value of each password field of the text, found by the key's own grammar, that does not begin inside another's value. |
| RedactFields.WrittenFieldIsScrubbed | src/mnemiq/redact.py:12-24 | A field written anywhere with such a name, a quote or not, any spaces, a separator and a closed value has that value replaced, whole and no more, unless it begins inside another's. |
| RedactFields.BareCloses | src/mnemiq/redact.py:82-87 | A bare value of any characters but blanks, and of any at all escaped, is closed. |
| RedactFields.QuotedCloses | src/mnemiq/redact.py:69-73 | A quoted value of any characters but its quote, and of any at all escaped, is closed. |
| RedactFields.BracedCloses | src/mnemiq/redact.py:74-81 | A braced value with its closing braces doubled is closed. |
| RedactFields.OneFieldIsStarred | src/mnemiq/redact.py:43-61 | A text with one such field is put out with `***` for its value and is otherwise as it was. |
| RedactValues.ClosedValueEnds | src/mnemiq/redact.py:64-87 | A closed bare, quoted or braced value, escapes included, ends where it closes. |
| RedactValues.ValueDoesNotShow | src/mnemiq/redact.py:43-61 | Replacing the value of any scrubbed field by another closed value of its form leaves the scrubbed text unchanged. |
| SampleValues.UnrolledDoubles | scripts/strip_sample_values.py:31-32 | An unrolled item is some value with its quotes doubled. |
| SampleValues.RunsOfSpell | scripts/strip_sample_values.py:31-32 | Every value with its quotes doubled is an unrolled item. |
| SampleValues.OneParse | scripts/strip_sample_values.py:31-32 | The unrolled item has exactly one parse. |
| SampleValues.SameLanguage | scripts/strip_sample_values.py:23-32 | The unrolled and the readable item accept the same strings, those that quoting a value writes. |
| SampleValues.ReadsClause | scripts/strip_sample_values.py:39-45 | Any clause the grammar spells is read to its end, with its values and the text after it. |
| SampleValues.ClauseReads | scripts/strip_sample_values.py:39-45 | Whatever is read as a clause is one the grammar spells, with those values. |
| SampleValues.StripsView | scripts/strip_sample_values.py:71 | Stripping text without the mark interleaved with printed clauses, of any values, leaves exactly the text and the right count. |
| TableSelection.BuildAdjacency | scripts/create_genie_spaces.py:67-71 | The adjacency is each table's neighbours by the keys with both ends among the tables, either way. |
| TableSelection.Explore | scripts/create_genie_spaces.py:78-85 | The search ends with its root's connected component, each table once, whatever order a set is walked in. |
| TableSelection.FindComponents | scripts/create_genie_spaces.py:73-86 | The components partition the tables: each is found once and every table is in one. |
| TableSelection.SortKeepsComponents | scripts/create_genie_spaces.py:88-89 | Sorting by size and first table keeps the components and puts them in that order. |
| TableSelection.LargestFirst | scripts/create_genie_spaces.py:88-89 | Components are taken largest first, and of as many tables by their first. |
| TableSelection.PackFits | scripts/create_genie_spaces.py:90-93 | A component is kept whole exactly if it fits beside what was kept before it. |
| TableSelection.SelectTables | scripts/create_genie_spaces.py:41-94 | Above the cap at most `cap` tables are kept, sorted, each exactly if its component fits beside the kept components ahead of it. |
| TableSelection.KeysStayWhole | scripts/create_genie_spaces.py:88-93 | Both ends of a foreign key are kept or both are dropped. |
| TableSelection.NothingElseFits | scripts/create_genie_spaces.py:90-93 | No dropped component fits in the room left. |
| AgentTurn.ProbesWithinBudget | src/mnemiq/agent/loop.py:49-52 | If each probe ends by its bound, the probes of a turn total at most `PROBE_BUDGET_S`. |
| AgentTurn.NoProbeTwice | src/mnemiq/agent/loop.py:716-729 | No filter value is asked about twice in a turn. |
| AgentRecord.HeldGrows | src/mnemiq/agent/loop.py:714-729 | What the source said of a value is kept for the turn, and once the budget is gone no more is asked. |
| AgentRecord.StandsGrows | src/mnemiq/agent/loop.py:703-730 | A statement planned, fetched and confirmed stays so, exactly, whatever is asked later in the turn. |
| AgentRecord.SettlingMeans | src/mnemiq/sql/values_check.py:1462-1481 | A settled value is grounded if the source holds it, absent if it does not, and as it was where nothing was said. |
| ResultClusters.Cluster | src/mnemiq/execute/resultset.py:156-166 | Every result is in exactly one group; each agrees with its group's first member and with no earlier group's first. |
| ResultClusters.Majority | src/mnemiq/execute/select.py:133-139 | The majority is the largest group, the first of them on a tie. |
| AgentLoop.Agent.Execute | src/mnemiq/agent/loop.py:477-498 | The planned statement, and no other, is fetched: a cached key is not run; a table is cached; a rejection drops the candidate; an outage or a cancel is passed on. |
| AgentLoop.Agent.Holds | src/mnemiq/agent/loop.py:716-729 | A value is asked about at most once, itself and bounded by what the budget leaves, and whenever any is left; only a value a fetched statement leaves open is ever asked about; what the source said is what is held and returned. |
| AgentLoop.Agent.Confirmed | src/mnemiq/agent/loop.py:703-730 | The statement comes back with each value among the first eight settled by what the record says the source answered, all of those asked unless the budget is gone, and unchanged where the grounding does not decide. |
| AgentLoop.Agent.ConfirmAll | src/mnemiq/sql/values_check.py:1462-1481 | Exactly the first eight different askable values are settled by what the source answered, where it answered, and every other is left as it was. |
| AgentLoop.Agent.Verify | src/mnemiq/agent/loop.py:732-758 | A statement that stands is put to the verifier; its hold is a failure if the check did not happen and a deferral if it did; a pass blocks nothing. |
| AgentLoop.Agent.Attempt | src/mnemiq/agent/loop.py:351-457 | One attempt plans once, fetches what is approved, and ends the turn for the reason its last event gives, unless the source rejected its one run. |
| AgentLoop.Agent.AnswerSingle | src/mnemiq/agent/loop.py:335-475 | The single path is a number of planned runs the source rejected, and then one attempt that ends it on a stop, a deferral, a verdict or an answer, or none where all the attempts were rejected. |
| AgentLoop.Agent.Gather | src/mnemiq/agent/loop.py:514-584 | Each candidate is planned once and, if approved, fetched; what was fetched is what is held, in order and confirmed; a stop ends the turn at once with its own reason; an undefined term is carried out; nothing is verified or told yet. |
| AgentLoop.Agent.Choose | src/mnemiq/agent/loop.py:627-654 | Where the selector is asked and names a group, that one is answered from, and else the largest. |
| AgentLoop.Agent.Representative | src/mnemiq/agent/loop.py:689-701 | The member that stands for the group is the first the sanity layer would pass, where it is on and passes any, else the first. |
| AgentLoop.Agent.Vote | src/mnemiq/agent/loop.py:597-687 | The vote clusters what was fetched, defers exactly when `min_agreement` is not met, and else ends as the group chosen does, past the verifier. |
| AgentLoop.Agent.Elect | src/mnemiq/agent/loop.py:623-687 | What is verified and told is the statement and table that stand for the chosen group, whose members agree; an answer told carries that group's share. |
| AgentLoop.Agent.AnswerConsistent | src/mnemiq/agent/loop.py:500-687 | Every candidate is planned unless one stops the turn; then an undefined term defers, a fetched table is voted on, and only where none was does the single path follow. |
| AgentLoop.Agent.AnswerTurn | src/mnemiq/agent/loop.py:276-333 | For every world: each event of the turn is what the world answered to the record before it, every approved statement was fetched, and the cache holds what the record says; the turn ends once, answered, deferred or failed, for the reason its record gives; nothing follows a stop; rows told were planned, fetched, confirmed and verified in it; runs are at most candidates plus attempts. |
| AgentLoop.StopsEndTheTurn | src/mnemiq/agent/loop.py:397-418 | The model down, a source that does not answer, and a statement cancelled are each the last thing in a turn, and the answer is a failure for that reason. |
| AgentLoop.SinglePathEndings | src/mnemiq/agent/loop.py:335-475 | On the single path a plan's deferral defers, the verifier's hold fails or defers as it says, and rejected attempts end in a failure. |
| CastCounts.CountsTell | scripts/infer_keys_spider2.py:124-139 | The probe's counts agree exactly when no value becomes NULL and, for a number, none is rounded. |
| PairAlignment.Aligner.CastIsLossless | scripts/infer_keys_spider2.py:92-139 | The probe answers whether the cast loses nothing, or raises. |
| PairAlignment.Aligner.RewriteColumn | scripts/infer_keys_spider2.py:142-164 | A rewrite casts the one column, keeps every value that was there, and is recorded and counted as it happens. |
| PairAlignment.Aligner.ProbeSides | scripts/infer_keys_spider2.py:261-269 | Both sides are decided before either is written, and nothing is written. |
| PairAlignment.Aligner.RewriteSides | scripts/infer_keys_spider2.py:270-282 | Each side is rewritten at most once, in order, up to the first failure. |
| PairAlignment.Aligner.AlignPair | scripts/infer_keys_spider2.py:236-282 | A pair is given up only where a rewrite failed. Otherwise it is brought to numbers, or, if a side does not take them or a probe of it raised, to text, or, if that is declined too, left; no other column changes; without faults the result is the specified one. |
| PairAlignment.Aligner.AlignPairs | scripts/infer_keys_spider2.py:214-283 | The believed types are the store's, the count is the rewrites made, no value anywhere is lost, and without faults the store is the pairs' specified results in order. |
| PairAlignment.LaterPair | scripts/infer_keys_spider2.py:236-282 | A later pair undoes an agreement exactly when it retypes one side of it and not the other. |
| PairAlignment.LaterPairCanUndo | scripts/infer_keys_spider2.py:236-282 | A pair brought to numbers is parted by a text neighbour of one side. |
| JudgeCache.RetryingJudge.Read | scripts/run_verify_replay.py:106-135 | The read is the first call not to be retried or the last allowed; `gave_up` rises by one exactly if it fell open; the pauses double. |
| JudgeCache.WaitIsBounded | scripts/run_verify_replay.py:123-135 | One read's pauses total at most `backoff * (2^(attempts-1) - 1)`. |
| JudgeCache.CachingJudge.Score | scripts/run_verify_replay.py:154-177 | A key held costs no call; a new score is kept exactly if it was a judgement. |
| JudgeCache.CachingJudge.Sweep | scripts/run_verify_replay.py:142-177 | Over any run, every score added came from a real judgement of that key, nothing kept changes, and at most `attempts` calls are made for each position whose key was not held: keys already held cost none. |
| ResultVote.UsableAreFinished | scripts/run_native_slm.py:178-194 | What may vote is exactly the finished candidates, or one empty query. |
| ResultVote.FinishedInOrder | scripts/run_native_slm.py:178-194 | The finished candidates vote in the order they came, each as often as it was generated. |
| ResultVote.SameVote | scripts/run_native_slm.py:460-472 | Two results are one vote exactly when they hold the same rows as many times, in any order. |
| ResultVote.Vote | scripts/run_native_slm.py:475-490 | The winner is the first candidate of the first largest group, and a query that failed only where none ran. |
| ResultVote.OneWinner | scripts/run_native_slm.py:475-490 | No two candidates win, so the vote is decided by its input. |
| ResultVote.VoteIgnoresOrder | scripts/run_native_slm.py:475-490 | The winning count and the number of groups do not depend on the candidates' order. |
| RunTally.CutIsNotAnswerable | scripts/run_native_slm.py:168-194 | A case none of whose generations finished cannot be graded correct. |
| RunTally.CutExactly | scripts/run_native_slm.py:168-194 | A case counts as cut exactly where generations were made and none finished. |
| RunTally.Count | scripts/run_native_slm.py:740-768 | A case without a gold result is an error, one without a query is never scored, and the empty and the cut are told apart. |
| RunTally.GradeOne | scripts/run_native_slm.py:708-785 | Each case goes to one of three outcomes, to correct exactly if the vote's winner returned what the gold does; each other counter moves exactly in its case. |
| RunTally.CorrectIsAnswerable | scripts/run_native_slm.py:708-785 | A case counted correct has a finished query that returns what its gold returns. |
| RunTally.Grade | scripts/run_native_slm.py:707-878 | Correct, wrong and error sum to the cases and each of the other counts is exact, empty queries and all-cut cases told apart; correct is at most `n_scored`; an accuracy is reported only if every question was answered and one was compared. |

## Left out

- SQL text, DDL splicing, drivers, HTTP, files and checkpoints: only which statement ran, what it counted or cast, and whether it failed matter here.
- Model calls, prompts, retrieval, the planner and the decider: they are parameters, free to answer as they like.
- Case folding and character classes beyond ASCII: `upper`, `lower`, word and space characters are the ASCII ones.
- The scrubber's URI pass and its idempotence: the password pass alone is modelled, and text glued to a closing quote is taken by a second pass.
- Columns stored in mixed case: column names are taken as the upper-case ones `column_types` returns, and a failed statement is taken to change nothing.
- RecastRun.StatusZeroKeepsAgreement: is for names that fold to different schemas; `RecastRun.StatusZeroKeepsExactlyWhen` shows that nothing less will do.
- SynonymReach.PublicArmIsExact: takes it that PUBLIC owns synonyms and no functions, as in Oracle.
- NameResolution.NotHiddenIsSafe: takes Oracle's resolution to be synonym, then object, then PUBLIC's synonym of the name, with at most one synonym or object of a name in a schema.
- Two leases that race on the assurance fields: the assurance is modelled one lease at a time, as the code has no lock there.
- Leases.StepKeepsSafe: `release` and `drop` do not raise, and a connection opened fresh has no timeout.
- Leases.CleanupReturns: is for a body that is not between a check and its write; a body ends only there.
- Leases over a borrowed connection (`over`), which keep a lock and restore the caller's timeout, and closing the pool.
- AgentLoop.Agent.AnswerTurn: prose, traces, disclosures and wall-clock deadlines only shape the text of an answer; the answer's other fields, such as the narrowed grants, are not modelled.
- AgentTurn.ProbesWithinBudget: needs each probe to end by the bound it is given; what the code itself ensures is that none starts once the budget is spent.
- A row in the vote is what its normalised values print: two rows that print alike are taken as one row.
- ResultVote.VoteIgnoresOrder: the query returned may differ with the order; ties go to the first.
- RecastRun.AlignAll: a value is rounded where it has a fraction and is cast to a `NUMBER`, as the probe has it; what a cast to a floating type does to its digits is not modelled.
- PairAlignment.LaterPair: is stated for pairs aligned without faults.
- The clean-up of a half-written pair, which the code leaves to its operator too.
- Numeric details of `%` formatting, logs, printed counts and progress lines.
