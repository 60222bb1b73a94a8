# NetarchiveSuite core logic in Dafny

A Dafny model of six pieces of NetarchiveSuite, the web-archiving suite, with proofs about each.

- **Harvest documentation** (`HarvestDocumentation`). This is the string, list and directory logic used when a finished harvest is documented:
  - building the query part of CDX URIs;
  - walking the domain-settings directory tree into reversed domain names such as `.dk.netarkivet`;
  - turning such a name back into `netarkivet.dk`;
  - choosing which metadata files may be deleted;
  - choosing which archive files belong to another job and are moved away.
- **Channel naming** (`ChannelNaming`). This covers how message-channel names are built from the environment, and the `equals`, `hashCode` and `toString` of a channel.
- **Attribute comparison** (`EAV`). This is the ordering of two lists of extended attributes with their types, including the exceptions it raises.
- **Retired queues** (`RetiredQueues`). This is the extraction of the over-budget frontier queues into a bounded in-memory report.
- **Filename ingest** (`FileNameIngest`). This is the wayback indexer's ingest of a file listing into the archive-file store, as insert-if-absent by trimmed filename.
- **Harvester status** (`HarvesterStatus`). This is how the scheduler handles harvester "ready" messages and registration requests, and which channels it listens on.

Two support modules sit underneath:
- `Basics` holds `Option`, standing for Java's null, and Java's 32-bit `int` with two's-complement wrap-around.
- `Strings` holds the `java.lang.String` operations the code relies on: `lastIndexOf`, `startsWith`, `trim`, `replace` and `Long.toString`. It also holds a split/join pair, with both round trips proved, that the lemmas use to describe results.

### How code is modelled

- Code that updates state step by step is kept as methods with loops. This covers `reverseDomainString`, `findAllDomainsWithSettings`, the deletable-list iterator loop, `moveAwayForeignFiles`, `compare`, `process` and `harvest`. Each method is proved equal to a specification function, and the properties are proved about that function.
- Objects whose fields change become classes with `modifies` clauses. These are the in-memory frontier report, the archive-file store, the dispatcher, the JMS connection and the registry.
- Exceptions are modelled as outcome values.
- For `reverseDomainString` the model follows the code, not the doc comment at `HarvestDocumentation.java:505`. That comment promises `"com.amazon"` → `"amazon.com"`. The code instead drops the text before the first dot and fails on input without a dot. `ReversedTwoLabels`, `ReversedDomainWithoutDot` and `SettingsFileAtTopFails` state these behaviours.

## Model

| member | source | states |
|---|---|---|
| HarvestDocumentation.CdxUriQuery | harvester/harvester/src/main/java/dk/netarkivet/harvester/harvesting/HarvestDocumentation.java:291-298 | The query opens with `majorversion=2&minorversion=0`, ends with the filename, and is 57 characters longer than the three values together. |
| HarvestDocumentation.AlternateCdxUriQuery | harvester/harvester/src/main/java/dk/netarkivet/harvester/harvesting/HarvestDocumentation.java:307-312 | The alternate query opens with `majorversion=3&minorversion=0`, ends with the filename, and is 46 characters longer than the decimal job id and the filename together. |
| HarvestDocumentation.CdxUriQueryText | harvester/harvester/src/main/java/dk/netarkivet/harvester/harvesting/HarvestDocumentation.java:291-298 | `getCDXURIQuery(h, j, f)` is `"majorversion=2&minorversion=0&harvestid=" + h + "&jobid=" + j + "&filename=" + f`. |
| HarvestDocumentation.AlternateCdxUriQueryText | harvester/harvester/src/main/java/dk/netarkivet/harvester/harvesting/HarvestDocumentation.java:307-312 | `getAlternateCDXURIQuery(j, f)` is `"majorversion=3&minorversion=0&jobid=" + j + "&filename=" + f`, with `j` written in decimal. |
| HarvestDocumentation.CdxUriQueryFields | harvester/harvester/src/main/java/dk/netarkivet/harvester/harvesting/HarvestDocumentation.java:75-80 | The CDX query is `majorversion=2&minorversion=0&harvestid=h&jobid=j&filename=f`. When no value holds `&`, splitting it at `&` gives back exactly the five assignments in order. |
| HarvestDocumentation.CdxUriQueryIsJoin | harvester/harvester/src/main/java/dk/netarkivet/harvester/harvesting/HarvestDocumentation.java:291-298 | The query is the five `name=value` assignments joined by `&`. |
| HarvestDocumentation.AlternateCdxUriQueryFields | harvester/harvester/src/main/java/dk/netarkivet/harvester/harvesting/HarvestDocumentation.java:307-312 | The alternate query is `majorversion=3&minorversion=0&jobid=<decimal job id>&filename=f`. When the filename holds no `&`, splitting it gives back the four assignments. |
| HarvestDocumentation.AlternateCdxUriQueryIsJoin | harvester/harvester/src/main/java/dk/netarkivet/harvester/harvesting/HarvestDocumentation.java:307-312 | The alternate query is its four assignments joined by `&`. |
| HarvestDocumentation.ReverseDomainString | harvester/harvester/src/main/java/dk/netarkivet/harvester/harvesting/HarvestDocumentation.java:510-520 | The lastIndexOf loop returns `ReversedDomain(input)`. It fails (`None`, for the `substring(0, -1)` exception) exactly when the input has no dot. |
| HarvestDocumentation.ReversedDomain | harvester/harvester/src/main/java/dk/netarkivet/harvester/harvesting/HarvestDocumentation.java:513-519 | The result is absent exactly when the input holds no `.`. Otherwise it is the dot-separated parts after the first one, in reverse order. |
| HarvestDocumentation.ReversedDottedPath | harvester/harvester/src/main/java/dk/netarkivet/harvester/harvesting/HarvestDocumentation.java:510-520 | For `"." + l1 + … + "." + ln` with dot-free labels, the result is `ln + "." + … + "." + l1`. |
| HarvestDocumentation.DomainRoundTrip | harvester/harvester/src/main/java/dk/netarkivet/harvester/harvesting/HarvestDocumentation.java:510-520 | Reversing the dotted path of the reversed labels gives back the domain name. |
| HarvestDocumentation.FirstLabelDropped | harvester/harvester/src/main/java/dk/netarkivet/harvester/harvesting/HarvestDocumentation.java:513-519 | Without a leading dot, the first label is lost: `p1.….pn` gives `pn.….p2`. |
| HarvestDocumentation.ReversedTwoLabels | harvester/harvester/src/main/java/dk/netarkivet/harvester/harvesting/HarvestDocumentation.java:505-520 | For dot-free labels `a` and `b`, `.a.b` gives `b.a` (so `.dk.netarkivet` gives `netarkivet.dk`), but `a.b` gives only `b` (so `com.amazon` gives `amazon`, not the comment's `amazon.com`). |
| HarvestDocumentation.ReversedDomainWithoutDot | harvester/harvester/src/main/java/dk/netarkivet/harvester/harvesting/HarvestDocumentation.java:513-519 | A name without a dot, such as `""` or `dk`, fails, because `domain` stays empty and `substring(0, -1)` throws. |
| HarvestDocumentation.FindAllDomainsWithSettings | harvester/harvester/src/main/java/dk/netarkivet/harvester/harvesting/HarvestDocumentation.java:478-502 | Returns `[]` for a non-directory. Otherwise the recursive walk with its loop returns `DomainsWithSettings`: the prefix extended by `"." + name` along each path, in listing order. |
| HarvestDocumentation.ListingDomainsMembership | harvester/harvester/src/main/java/dk/netarkivet/harvester/harvesting/HarvestDocumentation.java:485-500 | A string is returned exactly when it is the prefix plus the dotted directory path to a directory that directly holds the settings file. |
| HarvestDocumentation.FoundHasPath | harvester/harvester/src/main/java/dk/netarkivet/harvester/harvesting/HarvestDocumentation.java:485-500 | Every returned string comes with a directory path that leads to a settings file. |
| HarvestDocumentation.PathIsFound | harvester/harvester/src/main/java/dk/netarkivet/harvester/harvesting/HarvestDocumentation.java:485-500 | Every directory path to a settings file yields its string in the result. |
| HarvestDocumentation.DomainsWithSettingsMembership | harvester/harvester/src/main/java/dk/netarkivet/harvester/harvesting/HarvestDocumentation.java:478-502 | Result membership holds exactly for directories holding the settings file, for a directory root. A non-directory yields nothing. |
| HarvestDocumentation.WalkListsEachSettingsDirectoryOnce | harvester/harvester/src/main/java/dk/netarkivet/harvester/harvesting/HarvestDocumentation.java:485-500 | In a tree where no directory holds two entries of the same name, each directory that holds the settings file contributes exactly one string. The strings are `prefix + "." + d1 + … + "." + dn` for the distinct paths to such directories, one per path and in walk order. |
| HarvestDocumentation.SettingsFileAtTopFails | harvester/harvester/src/main/java/dk/netarkivet/harvester/harvesting/HarvestDocumentation.java:495-497 | A settings file directly in the top directory yields the bare prefix `""`, which `reverseDomainString` cannot reverse. |
| HarvestDocumentation.SettingsWalkExample | harvester/harvester/src/main/java/dk/netarkivet/harvester/harvesting/HarvestDocumentation.java:478-502 | The tree `dk/netarkivet/settings.xml` yields `.dk.netarkivet`. |
| HarvestDocumentation.Deletable | harvester/harvester/src/main/java/dk/netarkivet/harvester/harvesting/HarvestDocumentation.java:160-167 | No file named `crawl.log`, `harvestInfo.xml` or `progress-statistics.log` remains, and the list never grows. |
| HarvestDocumentation.RemoveFilesKeptForLater | harvester/harvester/src/main/java/dk/netarkivet/harvester/harvesting/HarvestDocumentation.java:160-167 | The in-place iterator removal leaves exactly `Deletable(files)`. |
| HarvestDocumentation.DeletableMembership | harvester/harvester/src/main/java/dk/netarkivet/harvester/harvesting/HarvestDocumentation.java:160-167 | A file is in the deletable list exactly when it was in the list and is not named `crawl.log`, `harvestInfo.xml` or `progress-statistics.log`. |
| HarvestDocumentation.DeletableSplit | harvester/harvester/src/main/java/dk/netarkivet/harvester/harvesting/HarvestDocumentation.java:160-167 | The deletable files of `a + b` are those of `a` followed by those of `b`. So the remaining files keep their original relative order, and a file listed twice remains twice unless it is a kept file. |
| HarvestDocumentation.DeletableKeepsOrder | harvester/harvester/src/main/java/dk/netarkivet/harvester/harvesting/HarvestDocumentation.java:160-167 | A list without kept files is left unchanged, order included. |
| HarvestDocumentation.MoveAwayForeignFiles | harvester/harvester/src/main/java/dk/netarkivet/harvester/harvesting/HarvestDocumentation.java:328-343 | Each file whose name lacks the harvest-name prefix is moved into the lost-files directory, in listing order, and files with the prefix stay in place. If creating the directory is refused, nothing moves. |
| HarvestDocumentation.ForeignFiles | harvester/harvester/src/main/java/dk/netarkivet/harvester/harvesting/HarvestDocumentation.java:331-332 | Every selected file lacks the harvest-name prefix, and there are no more of them than files. |
| HarvestDocumentation.OwnFiles | harvester/harvester/src/main/java/dk/netarkivet/harvester/harvesting/HarvestDocumentation.java:331-332 | Every selected file has the harvest-name prefix, and there are no more of them than files. |
| HarvestDocumentation.ForeignAndOwnPartition | harvester/harvester/src/main/java/dk/netarkivet/harvester/harvesting/HarvestDocumentation.java:328-343 | Foreign and own files partition the listing as a multiset. A file is foreign exactly when its name lacks the prefix. |
| ChannelNaming.NewChannelID | common/common/src/main/java/dk/netarkivet/common/distribute/ChannelID.java:86-90 | The constructor stores `isTopic` unchanged. Without a node id, the name is `env_replica_prefix`. |
| ChannelNaming.NameWithoutNodeId | common/common/src/main/java/dk/netarkivet/common/distribute/ChannelID.java:106-118 | Without a node id, the name is `env + "_" + replicaId + "_" + appPref`, whatever the instance-id flag. |
| ChannelNaming.NameWithNodeId | common/common/src/main/java/dk/netarkivet/common/distribute/ChannelID.java:110-117 | With a node id, the name is followed by `"_" + ip'`, where `ip'` is the IP with no `.` left and the same length. `"_" + instanceId` is appended only when asked for and non-empty. |
| ChannelNaming.ConstructName | common/common/src/main/java/dk/netarkivet/common/distribute/ChannelID.java:106-118 | The name always starts with `env_replica_prefix`. It is longer exactly when a node id is asked for and the IP address or the requested instance id is non-empty, and the extra part then starts with `_`. |
| ChannelNaming.Equals | common/common/src/main/java/dk/netarkivet/common/distribute/ChannelID.java:184-199 | `equals` holds exactly when the other object is a ChannelID with the same kind and name, that is, the same channel value. |
| ChannelNaming.EqualsIsEquivalence | common/common/src/main/java/dk/netarkivet/common/distribute/ChannelID.java:184-199 | `equals` is reflexive, symmetric and transitive. |
| ChannelNaming.StringHash | common/common/src/main/java/dk/netarkivet/common/distribute/ChannelID.java:206 | `String.hashCode` in 32-bit arithmetic agrees modulo 2^32 with the exact polynomial `s[0]*31^(n-1) + ... + s[n-1]`. |
| ChannelNaming.HashCode | common/common/src/main/java/dk/netarkivet/common/distribute/ChannelID.java:204-209 | `hashCode` agrees modulo 2^32 with `29 * polynomial(name) + (isTopic ? 1 : 0)`. |
| ChannelNaming.HashCodeAgreesWithEquals | common/common/src/main/java/dk/netarkivet/common/distribute/ChannelID.java:204-209 | Equal channels have equal hash codes, using the 32-bit `29 * hash(name) + (isTopic ? 1 : 0)`. |
| ChannelNaming.HashCodeSeparatesKinds | common/common/src/main/java/dk/netarkivet/common/distribute/ChannelID.java:204-209 | A topic and a queue with the same name have different hash codes. |
| ChannelNaming.ToString | common/common/src/main/java/dk/netarkivet/common/distribute/ChannelID.java:131-134 | The printed form is 10 characters longer than the name: `[Topic '` exactly for a topic and `[Queue '` exactly for a queue, then the whole name, then `']`. |
| ChannelNaming.ToStringInjective | common/common/src/main/java/dk/netarkivet/common/distribute/ChannelID.java:131-134 | Different channels print differently. |
| EAV.Compare | harvester/harvester-core/src/main/java/dk/netarkivet/harvester/datamodel/eav/EAV.java:135-214 | The two-cursor loop returns `CompareAsWritten`, with the 32-bit differences and the early returns. The result is -1, 0 or 1 unless an exception is raised. |
| EAV.CompareFrom | harvester/harvester-core/src/main/java/dk/netarkivet/harvester/datamodel/eav/EAV.java:153-213 | Every ordinary result is -1, 0 or 1. |
| EAV.CompareAsWritten | harvester/harvester-core/src/main/java/dk/netarkivet/harvester/datamodel/eav/EAV.java:135-214 | With the source's 32-bit differences, every ordinary result is -1, 0 or 1, and two empty lists compare as 0. |
| EAV.CompareExact | harvester/harvester-core/src/main/java/dk/netarkivet/harvester/datamodel/eav/EAV.java:135-214 | Two empty lists compare as 0, and results are -1, 0 or 1. |
| EAV.FirstDifferenceDecides | harvester/harvester-core/src/main/java/dk/netarkivet/harvester/datamodel/eav/EAV.java:153-207 | After ties, the first undecided position decides. Lists tied throughout compare as 0. A longer first list gives -1, and a longer second list gives 1. |
| EAV.ExactStep | harvester/harvester-core/src/main/java/dk/netarkivet/harvester/datamodel/eav/EAV.java:156-189 | At one position: a null type throws. A greater first type id gives -1 and a smaller one gives 1. At equal ids, a non-integer datatype throws `UnsupportedOperationException`. Otherwise the value (attribute, else `def_int`, else 0) orders in descending order, and equal values tie. |
| EAV.AsWrittenIsExactWithoutOverflow | harvester/harvester-core/src/main/java/dk/netarkivet/harvester/datamodel/eav/EAV.java:156-186 | When no `int` subtraction overflows, the source's result is the exact comparison. |
| EAV.CompareReflexive | harvester/harvester-core/src/main/java/dk/netarkivet/harvester/datamodel/eav/EAV.java:153-211 | `compare(a, a) == 0` for lists of integer-datatype entries. |
| EAV.CompareExactAntisymmetric | harvester/harvester-core/src/main/java/dk/netarkivet/harvester/datamodel/eav/EAV.java:153-211 | With exact differences, `compare(a, b) == -compare(b, a)` whenever neither call throws. |
| EAV.AsWrittenAntisymmetricWithoutOverflow | harvester/harvester-core/src/main/java/dk/netarkivet/harvester/datamodel/eav/EAV.java:153-211 | The source's comparison is antisymmetric when no subtraction overflows in either direction. |
| EAV.OverflowBreaksAntisymmetry | harvester/harvester-core/src/main/java/dk/netarkivet/harvester/datamodel/eav/EAV.java:183-186 | As written, the values 0 and `Integer.MIN_VALUE` each compare as -1 against the other. The exact comparison orders them consistently. |
| RetiredQueues.Process | harvester/harvester/src/main/java/dk/netarkivet/harvester/harvesting/frontier/RetiredQueuesFilter.java:32-54 | The result keeps the input's job name and holds `RetiredLines`: the first `max(0, maxSize + 1)` over-budget lines, in spent-budget order. A report that is not a full report fails the cast. |
| RetiredQueues.IsOverBudget | harvester/harvester/src/main/java/dk/netarkivet/harvester/harvesting/frontier/RetiredQueuesFilter.java:62-65 | A queue with a negative budget is never retired. A queue with a budget is retired exactly when it has spent all of it, so a retired queue has spent a non-negative amount. |
| RetiredQueues.OverBudgetLines | harvester/harvester/src/main/java/dk/netarkivet/harvester/harvesting/frontier/RetiredQueuesFilter.java:40-45 | Every kept line is over budget, and there are never more kept lines than input lines. |
| RetiredQueues.OverBudgetSplit | harvester/harvester/src/main/java/dk/netarkivet/harvester/harvesting/frontier/RetiredQueuesFilter.java:40-45 | The filter distributes over concatenation, so lines keep their iterator order. |
| RetiredQueues.OverBudgetMembership | harvester/harvester/src/main/java/dk/netarkivet/harvester/harvesting/frontier/RetiredQueuesFilter.java:42-45 | A line is kept exactly when it is an input line with `totalBudget >= 0 && totalSpend >= totalBudget`. |
| RetiredQueues.RetiredLinesProperties | harvester/harvester/src/main/java/dk/netarkivet/harvester/harvesting/frontier/RetiredQueuesFilter.java:38-46 | Every result line is an over-budget input line. The result is a prefix of the over-budget lines and holds `min(count, max(0, maxSize + 1))` of them. |
| RetiredQueues.ProcessAdmitsOneMore | harvester/harvester/src/main/java/dk/netarkivet/harvester/harvesting/frontier/RetiredQueuesFilter.java:38-46 | With more than `maxSize` over-budget lines, the guard `addedLines <= maxSize` lets `maxSize + 1` through. A negative maximum lets none through. |
| RetiredQueues.NoBudgetNeverRetired | harvester/harvester/src/main/java/dk/netarkivet/harvester/harvesting/frontier/RetiredQueuesFilter.java:63-66 | A queue with a negative budget is never in the result. |
| FileNameIngest.Harvest | unclassified/csr_indexing/src/dk/netarkivet/wayback/indexer/FileNameHarvester.java:57-68 | The store becomes the ingest of every line read. A failing read ends the loop with `IOFailure`, keeping what was stored before it. |
| FileNameIngest.IngestLine | unclassified/csr_indexing/src/dk/netarkivet/wayback/indexer/FileNameHarvester.java:59-64 | One line adds its trimmed filename to the stored filenames. Stored records keep their value, and a filename not stored before gets a new, unindexed record. |
| FileNameIngest.Ingest | unclassified/csr_indexing/src/dk/netarkivet/wayback/indexer/FileNameHarvester.java:58-65 | The store only grows, and records stored before keep their value. |
| FileNameIngest.IngestKeys | unclassified/csr_indexing/src/dk/netarkivet/wayback/indexer/FileNameHarvester.java:57-65 | Afterwards, the stored filenames are the old ones plus every trimmed line. |
| FileNameIngest.IngestRecords | unclassified/csr_indexing/src/dk/netarkivet/wayback/indexer/FileNameHarvester.java:59-64 | Existing records, including their indexed flag, are unchanged. New records carry their filename and are not indexed. |
| FileNameIngest.AddedNamesAreTrimmed | unclassified/csr_indexing/src/dk/netarkivet/wayback/indexer/FileNameHarvester.java:59-61 | Every added filename is already trimmed, because the line is trimmed before both the check and the insert. |
| FileNameIngest.IngestKnownNames | unclassified/csr_indexing/src/dk/netarkivet/wayback/indexer/FileNameHarvester.java:59 | Lines whose filenames are all stored change nothing. |
| FileNameIngest.IngestAppend | unclassified/csr_indexing/src/dk/netarkivet/wayback/indexer/FileNameHarvester.java:58-65 | Ingesting two lists in turn is ingesting their concatenation. |
| FileNameIngest.IngestIdempotent | unclassified/csr_indexing/src/dk/netarkivet/wayback/indexer/FileNameHarvester.java:57-65 | A second run over the same list leaves the store as the first run left it. |
| FileNameIngest.RepeatedLineAddsNothing | unclassified/csr_indexing/src/dk/netarkivet/wayback/indexer/FileNameHarvester.java:58-65 | A line whose trimmed filename is already stored, or appeared on an earlier line, adds nothing: the store ends as if the line were absent. |
| FileNameIngest.DuplicateLinesAddNothing | unclassified/csr_indexing/src/dk/netarkivet/wayback/indexer/FileNameHarvester.java:57-65 | A listing given twice over stores exactly what it stores once. |
| FileNameIngest.NewRecord | unclassified/csr_indexing/src/dk/netarkivet/wayback/indexer/FileNameHarvester.java:60-62 | A new record carries the filename and is not indexed. |
| HarvesterStatus.NewHarvesterStatusReceiver | harvester/harvest-scheduler/src/main/java/dk/netarkivet/harvester/scheduler/HarvesterStatusReceiver.java:64-73 | A null dispatcher, connection or DAO is refused (`ArgumentNotValid`, the first null one named). A null registry is accepted, and the fields are set. |
| HarvesterStatus.NullArgument | harvester/harvest-scheduler/src/main/java/dk/netarkivet/harvester/scheduler/HarvesterStatusReceiver.java:66-68 | The checks fail exactly when one of the three arguments is null, and they name the first such one. |
| HarvesterStatus.HarvesterStatusReceiver.Start | harvester/harvest-scheduler/src/main/java/dk/netarkivet/harvester/scheduler/HarvesterStatusReceiver.java:75-79 | Adds listeners on the status and registration-request channels. |
| HarvesterStatus.HarvesterStatusReceiver.Shutdown | harvester/harvest-scheduler/src/main/java/dk/netarkivet/harvester/scheduler/HarvesterStatusReceiver.java:81-84 | Removes only the status-channel listener. |
| HarvesterStatus.HarvesterStatusReceiver.VisitReady | harvester/harvest-scheduler/src/main/java/dk/netarkivet/harvester/scheduler/HarvesterStatusReceiver.java:91-97 | A null message is refused before any effect. An unknown channel name throws `UnknownID` without a submission. Otherwise the channel looked up by name is submitted exactly once. |
| HarvesterStatus.HarvesterStatusReceiver.VisitRegistration | harvester/harvest-scheduler/src/main/java/dk/netarkivet/harvester/scheduler/HarvesterStatusReceiver.java:99-123 | A null message is refused before any effect. A known channel registers `(channelName, instanceId)` exactly once, and an unknown one registers nothing. Exactly one response, `RegistrationReply`, carrying the request's channel name, is sent. With a null registry, a known channel throws before the reply. |
| HarvesterStatus.RegistrationReply | harvester/harvest-scheduler/src/main/java/dk/netarkivet/harvester/scheduler/HarvesterStatusReceiver.java:106-120 | The reply carries the request's channel name. It is valid exactly when the channel is known. `isSnapshot` is the channel's flag when known and `true` otherwise. |

## Left out

- I/O and environment:
  - Reading settings, the clock, logging and the local IP lookup are left out.
  - The IP, the environment name, the instance id, the maximum report size, the lost-files directory and the channel identities are parameters.
  - Starting and reading the batch job that produces the file listing is left out. The listing is a parameter, and a failing `readLine` is an optional position.
- Files and directories:
  - The directory tree and the file list are values.
  - `File.renameTo`'s result is ignored by the source, and the model treats every rename as done.
  - URI escaping and the scheme, host and path parts of CDX URIs are not modelled.
  - The name of the domain-settings file comes from `MetadataFile`, which is not part of this model. It is taken as `settings.xml`.
- Other classes:
  - `MetadataFile`, `InMemoryFrontierReport`, `FullFrontierReport`, `ArchiveFileDAO`, `HarvestChannelDAO`, `HarvestChannelRegistry`, `JobDispatcher`, `JMSConnection` and `HarvesterChannels` are not part of this model.
  - Each is modelled as far as the core calls it. A report is the ordered list of lines added. A store is a map from filename to record. The registry, dispatcher and connection record the calls they receive.
- Java features:
  - Serialization of `ChannelID` is left out.
  - JMS delivery and concurrency are left out, including the `synchronized` on `harvest`.
  - `String.hashCode` treats a `char` as one UTF-16 unit. Dafny's `char` is a Unicode scalar, so supplementary characters are not modelled.
- EAV:
  - Lists holding null elements are not modelled. The source treats a null element like the end of its list.
  - Datatypes other than integer exist only as the `UnsupportedOperationException` they raise.
- HarvestDocumentation.WalkListsEachSettingsDirectoryOnce: the tree is a value, so it could list two entries with one name in a directory. The lemma therefore assumes what a file system guarantees: the names in each directory are distinct.
- RetiredQueues.Process: the `int` counter `addedLines` is unbounded in the model. The source's counter would wrap only after 2^31 added lines, when `maxSize` is `Integer.MAX_VALUE`.
- HarvesterStatus.HarvesterStatusReceiver.VisitReady: what the dispatcher does with a submitted channel is not part of this model.
- The bit-archive upload and placement code that the integrity tests exercise is not part of this model.

## Findings

| source | as written | input that shows it | evidently intended | confidence | as-written member | corrected member |
|---|---|---|---|---|---|---|
| harvester/harvester-core/src/main/java/dk/netarkivet/harvester/datamodel/eav/EAV.java:183-186 | `res = i2 - i1` is taken in 32-bit `int`, and its sign decides the order | one integer entry with value 0 against one with `Integer.MIN_VALUE`, same type: both `compare(a, b)` and `compare(b, a)` return -1 | order by the exact difference, so that `compare(a, b) == -compare(b, a)` as the `Comparator` contract requires | not executed | EAV.OverflowBreaksAntisymmetry | EAV.CompareExactAntisymmetric |

