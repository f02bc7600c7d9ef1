# Shoko Server core, modelled in Dafny

This project models four pieces of the Shoko anime-library server and proves
what each of them promises.

* **The "has resolution" filter leaf** (`resolution_filter.dfy`, module `ResolutionFilter`).
  This is one leaf of the typed filter-expression tree. It passes when the
  entity's set of file resolutions contains the leaf's string parameter, and it
  is never time- or user-dependent. It has value equality: same runtime type,
  same base part, same parameter. Its hash combines only the base hash and the
  parameter.
* **The AniDB `FILE` request** (`anidb_file.dfy`, module `AniDBFile`), following
  the FILE command of the AniDB UDP API Definition.
  * The command text is built from the file size, the ed2k hash and fixed
    hexadecimal field masks.
  * The 18-column `|`-separated reply becomes a record holding:
    * ids, group and deprecated flag;
    * version, censored and CRC state from the state bit field;
    * quality and source keywords;
    * episode cross-references;
    * language lists;
    * MyList data.
  * In the model's code, every exception the parser throws is a `Failure` with
    the matching `ParseError`. The contracts name the column-count, id and
    response-code errors and the incomplete cross-reference pair.
* **Creating or updating an anime group** (`group_merge.dfy`, module `GroupMerge`),
  i.e. `CreateOrUpdateGroupBody.MergeWithExisting`.
  * Validation records every problem of the request in the model state, in
    order:
    * an unknown parent, or a parent below the child groups or below the group;
    * unknown child groups or series;
    * an empty group;
    * a foreign preferred series.
  * Only a request without problems changes anything. It gives a new group its
    id, moves it under its parent, pulls child groups and series into it, sets
    the main series, and applies the name and description rules.
  * The group is a class. The group and series repositories are maps. Calls
    into services are recorded in an effect log.
* **The cached user repository** (`user_repository.dfy`, class
  `UserRepository.JMMUserRepository`).
  * It has case-insensitive user-name lookup, authentication against a password
    digest, queries by the AniDB and Trakt flags, and the record count.
  * Saving a user obtains an id for a new user first and refreshes the group
    filters only on a reported change.
  * Removing a user is guarded so that an administrator remains. It strips the
    user's per-user entries out of every group filter in place, saving only the
    filters that changed.

Two support modules hold the .NET behaviour the core relies on:

* `wrappers.dfy` has `Option` and `Result`.
* `text.dfy` has:
  * `Char.IsWhiteSpace`, `Trim`, `Split` with and without empty entries;
  * `Replace` of one character, and `ToLower`;
  * `int`/`byte`/`long` `TryParse`;
  * decimal and `ToString("X")` formatting, and `PadLeft`.

## Model

| member | source | states |
|---|---|---|
| ResolutionFilter.FlagsConstant | Shoko.Server/Filters/Files/HasResolutionExpression.cs:15-16 | the leaf is neither time- nor user-dependent, whatever its parameter |
| ResolutionFilter.PossibleParametersDistinct | Shoko.Server/Filters/Files/HasResolutionExpression.cs:18-21 | the ten advertised resolutions are pairwise distinct |
| ResolutionFilter.EvaluateIsMembership | Shoko.Server/Filters/Files/HasResolutionExpression.cs:23-26 | the verdict is true exactly when the parameter is among the entity's resolutions, and it is the same for every viewing user |
| ResolutionFilter.EvaluateMonotone | Shoko.Server/Filters/Files/HasResolutionExpression.cs:23-26 | an entity with more resolutions never fails where one with fewer passed |
| ResolutionFilter.EqualsNullAndSelf | Shoko.Server/Filters/Files/HasResolutionExpression.cs:35-43 | nothing equals null, and every expression equals itself |
| ResolutionFilter.EqualsCharacterised | Shoko.Server/Filters/Files/HasResolutionExpression.cs:28-51 | equality holds exactly for the same runtime type, equal base part and equal parameter, so the reference shortcut never changes the verdict |
| ResolutionFilter.DifferentTypeNeverEqual | Shoko.Server/Filters/Files/HasResolutionExpression.cs:45-48 | an object of another runtime type is never equal, even with the same base part and parameter |
| ResolutionFilter.EqualsEquivalence | Shoko.Server/Filters/Files/HasResolutionExpression.cs:28-51 | equality is symmetric and transitive |
| ResolutionFilter.EqualImpliesEqualFlags | Shoko.Server/Filters/Files/HasResolutionExpression.cs:15-16 | an object equal to the leaf is a leaf with the same dependency flags |
| ResolutionFilter.EqualImpliesEqualHash | Shoko.Server/Filters/Files/HasResolutionExpression.cs:53-56 | equal expressions have equal hash codes |
| ResolutionFilter.OperatorsAgree | Shoko.Server/Filters/Files/HasResolutionExpression.cs:58-66 | `!=` is the negation of `==`; `==` on a non-null left side is `Equals`; a null left side equals only null |
| AniDBFile.PadByteDigits | Shoko.Server/Providers/AniDB/UDP/Info/RequestGetFile.cs:48 | a byte is spelled as exactly two hex digits, the high one first |
| AniDBFile.PadByteRoundTrip | Shoko.Server/Providers/AniDB/UDP/Info/RequestGetFile.cs:48 | the two characters are upper-case hex digits and read back as the byte |
| AniDBFile.FMaskSpelled | Shoko.Server/Providers/AniDB/UDP/Info/RequestGetFile.cs:38-42 | the five file-mask bytes spell `7F00C0D1F0` |
| AniDBFile.AMaskSpelled | Shoko.Server/Providers/AniDB/UDP/Info/RequestGetFile.cs:43-46 | the four anime-mask bytes spell `00000000` |
| AniDBFile.BaseCommand | Shoko.Server/Providers/AniDB/UDP/Info/RequestGetFile.cs:20-31 | the command is `FILE size=<size>&ed2k=<hash>&fmask=7F00C0D1F0&amask=00000000` |
| AniDBFile.CommandSizeReadsBack | Shoko.Server/Providers/AniDB/UDP/Info/RequestGetFile.cs:25 | the size written into the command parses back, as a `long`, to the file size |
| AniDBFile.ColumnsJoin | Shoko.Server/Providers/AniDB/UDP/Info/RequestGetFile.cs:60 | columns without `|` and without whitespace at either end, joined with `|`, read back as the same columns, empty ones kept, in order |
| Text.SplitCount | Shoko.Server/Providers/AniDB/UDP/Info/RequestGetFile.cs:60-61 | a split gives one piece more than there are separators, so an 18-column reply has exactly 17 `|` |
| Text.SplitJoin | Shoko.Server/Providers/AniDB/UDP/Info/RequestGetFile.cs:60 | joining the pieces with the separator gives back the reply |
| AniDBFile.StateFlagsRoundTrip | Shoko.Server/Providers/AniDB/UDP/Info/RequestGetFile.cs:70-81 | for any set of flags, the state value with exactly their bits set reads back as that set |
| AniDBFile.SampleStateFlags | Shoko.Server/Providers/AniDB/UDP/Info/RequestGetFile.cs:58 | the sample reply's state 4097 reads as a matched CRC and chapters, nothing else |
| Text.ParseIgnoresTrailingNul | Shoko.Server/Providers/AniDB/UDP/Info/RequestGetFile.cs:63 | a `'\0'` after the text never changes what `int.TryParse` gives |
| AniDBFile.VersionFromState | Shoko.Server/Providers/AniDB/UDP/Info/RequestGetFile.cs:73-77 | the version is 1 when no version flag is set, else the highest version flagged |
| AniDBFile.CensoredFromState | Shoko.Server/Providers/AniDB/UDP/Info/RequestGetFile.cs:79 | false exactly when Uncensored is set, which wins over Censored; true exactly when only Censored is set |
| AniDBFile.CrcFromState | Shoko.Server/Providers/AniDB/UDP/Info/RequestGetFile.cs:80 | true exactly when CRCMatch is set, which wins over CRCErr; false exactly when only CRCErr is set |
| AniDBFile.QualityKeywordsParse | Shoko.Server/Providers/AniDB/UDP/Info/RequestGetFile.cs:155-177 | every known quality is recovered from its keyword |
| AniDBFile.MediumSecondSpelling | Shoko.Server/Providers/AniDB/UDP/Info/RequestGetFile.cs:163-165 | "medium" reads as Medium too |
| AniDBFile.UnknownQualityExactly | Shoko.Server/Providers/AniDB/UDP/Info/RequestGetFile.cs:155-177 | Unknown comes exactly from text whose key is none of the eight keywords |
| AniDBFile.QualityIgnoresCaseAndSpaces | Shoko.Server/Providers/AniDB/UDP/Info/RequestGetFile.cs:157 | lower-casing the text or inserting a space anywhere never changes the quality |
| AniDBFile.SourceKeywordsParse | Shoko.Server/Providers/AniDB/UDP/Info/RequestGetFile.cs:179-198 | every known source is recovered from its keyword, "ld" giving LaserDisc |
| AniDBFile.UnknownSourceExactly | Shoko.Server/Providers/AniDB/UDP/Info/RequestGetFile.cs:179-198 | Unknown comes exactly from text whose key is none of the thirteen keywords |
| AniDBFile.SourceIgnoresCaseAndHyphens | Shoko.Server/Providers/AniDB/UDP/Info/RequestGetFile.cs:181 | lower-casing the text or inserting a hyphen anywhere never changes the source |
| AniDBFile.ReadPair | Shoko.Server/Providers/AniDB/UDP/Info/RequestGetFile.cs:103-105 | a pair gives a cross-reference exactly when the id is an `int` and the percentage a `byte`, holding those values |
| AniDBFile.PairXRefs | Shoko.Server/Providers/AniDB/UDP/Info/RequestGetFile.cs:99-107 | at most one cross-reference per two tokens, each percentage a byte; the only exception is the incomplete last pair |
| AniDBFile.PairXRefsFailsExactly | Shoko.Server/Providers/AniDB/UDP/Info/RequestGetFile.cs:100-104 | reading the pairs throws exactly when the token count is odd and the lone last token is an `int` |
| AniDBFile.PairXRefsWellFormed | Shoko.Server/Providers/AniDB/UDP/Info/RequestGetFile.cs:99-107 | when every pair is well formed, each pair becomes one cross-reference, in order |
| AniDBFile.MalformedPairSkipped | Shoko.Server/Providers/AniDB/UDP/Info/RequestGetFile.cs:103-107 | a malformed pair is dropped and the rest is read as if it were absent |
| AniDBFile.IncompleteLastPairThrows | Shoko.Server/Providers/AniDB/UDP/Info/RequestGetFile.cs:100-104 | an episode id left over after any whole number of pairs makes the read of its missing percentage throw |
| AniDBFile.EpisodeXRefs | Shoko.Server/Providers/AniDB/UDP/Info/RequestGetFile.cs:88-114 | an empty other-episodes column gives an empty list even when the primary episode parsed; else the primary episode at 100% comes first, then the pairs |
| Text.SplitNonEmpty | Shoko.Server/Providers/AniDB/UDP/Info/RequestGetFile.cs:117-120 | the language lists hold no empty token and no `'`, and hold every non-empty piece of the split as often as the split has it |
| Text.RemoveEmpty | Shoko.Server/Providers/AniDB/UDP/Info/RequestGetFile.cs:117-120 | exactly the non-empty pieces are kept, each as often as it occurs |
| Text.RemoveEmptyAppend | Shoko.Server/Providers/AniDB/UDP/Info/RequestGetFile.cs:117-120 | dropping empty pieces keeps the order of the rest |
| Text.JoinSplit | Shoko.Server/Providers/AniDB/UDP/Info/RequestGetFile.cs:60 | splitting a join of separator-free pieces gives the pieces back |
| Text.SplitNonEmptyJoin | Shoko.Server/Providers/AniDB/UDP/Info/RequestGetFile.cs:117-120 | a list of non-empty languages joined with `'` reads back as the same list |
| AniDBFile.ParseView | Shoko.Server/Providers/AniDB/UDP/Info/RequestGetFile.cs:205-214 | the view count is 0 when unreadable; the view date is set exactly when count and time both read, as the time in milliseconds; an out-of-range date throws |
| AniDBFile.ViewMillisExact | Shoko.Server/Providers/AniDB/UDP/Info/RequestGetFile.cs:211 | inside the calendar's range the date is exactly seconds times 1000, with no wrap-around |
| AniDBFile.ParseMyList | Shoko.Server/Providers/AniDB/UDP/Info/RequestGetFile.cs:200-224 | no MyList data exactly when column 4 is not an `int`; otherwise unreadable states and out-of-range dates throw, and each field is the value its column gives |
| AniDBFile.ParseFileColumns | Shoko.Server/Providers/AniDB/UDP/Info/RequestGetFile.cs:60-120 | file and anime ids must be `int`s, in that order. The group is absent exactly when column 3 is not an `int`. Deprecated holds exactly for "1". Version, censored, CRC, quality, source, texts, cross-references and languages are as above |
| AniDBFile.ParseResponse | Shoko.Server/Providers/AniDB/UDP/Info/RequestGetFile.cs:50-153 | FILE is accepted exactly when its 18 columns all read, and then describes them; a wrong column count throws; NO SUCH FILE gives no record; every other code throws |
| GroupMerge.ResolveMembers | Shoko.Server/API/v3/Models/Shoko/Group.cs:261-264 | the lookup keeps exactly the records of requested ids that are positive and present |
| GroupMerge.ResolveComplete | Shoko.Server/API/v3/Models/Shoko/Group.cs:265 | as many records as ids exactly when every requested id is positive and present |
| GroupMerge.ResolvedGroupIds | Shoko.Server/API/v3/Models/Shoko/Group.cs:261-264 | the ids of the found groups are the requested ids that resolve |
| GroupMerge.ResolvedSeriesIds | Shoko.Server/API/v3/Models/Shoko/Group.cs:274-277 | the ids of the found series are the requested ids that resolve |
| GroupMerge.UnknownIDsExact | Shoko.Server/API/v3/Models/Shoko/Group.cs:267-269 | the reported ids are exactly the requested ids that no found record carries |
| GroupMerge.ChildGroupErrorsExact | Shoko.Server/API/v3/Models/Shoko/Group.cs:260-271 | one error against GroupIDs exactly when some child id is non-positive or unknown, listing exactly those ids |
| GroupMerge.SeriesErrorsExact | Shoko.Server/API/v3/Models/Shoko/Group.cs:273-284 | one error against SeriesIDs exactly when some series id is non-positive or unknown, listing exactly those ids |
| GroupMerge.DistinctByIdKeepsFirst | Shoko.Server/API/v3/Models/Shoko/Group.cs:287-291 | each series kept is the first of its id in the concatenation |
| GroupMerge.DistinctByIdSameIds | Shoko.Server/API/v3/Models/Shoko/Group.cs:287-291 | the combined list covers exactly the ids of its inputs |
| GroupMerge.DistinctByIdNoRepeats | Shoko.Server/API/v3/Models/Shoko/Group.cs:287-291 | no id occurs twice in the combined list |
| GroupMerge.AllSeriesListEmpty | Shoko.Server/API/v3/Models/Shoko/Group.cs:287-296 | the group is empty exactly when the request, its child groups and the group bring no series |
| GroupMerge.FindSeries | Shoko.Server/API/v3/Models/Shoko/Group.cs:302-303 | finds a series of that id from the list, and finds none exactly when the id is absent |
| GroupMerge.ChainReaches | Shoko.Server/API/v3/Models/Shoko/Group.cs:253-256 | a walk up the parent links ending in the ids is found whenever the fuel covers its steps |
| GroupMerge.ReachedByChain | Shoko.Server/API/v3/Models/Shoko/Group.cs:253-256 | whatever the search finds ends a walk up the parent links of at most as many steps as the fuel |
| GroupMerge.ChainFuelCovers | Shoko.Server/API/v3/Models/Shoko/Group.cs:253-256 | the bound of one step per stored group finds every ancestor reached by a walk that repeats no group |
| GroupMerge.ParentUnderChildRejected | Shoko.Server/API/v3/Models/Shoko/Group.cs:253-254 | a parent with a requested child group anywhere above it is reported |
| GroupMerge.ParentUnderGroupRejected | Shoko.Server/API/v3/Models/Shoko/Group.cs:255-256 | a parent with the group being updated anywhere above it is reported |
| GroupMerge.DescendantMonotone | Shoko.Server/API/v3/Models/Shoko/Group.cs:253-256 | a longer ancestor walk or a larger target set never loses a detected ancestor |
| GroupMerge.ValidIff | Shoko.Server/API/v3/Models/Shoko/Group.cs:242-310 | no error is recorded exactly when: the parent is found and below neither the child groups nor the group; every child and series id resolves; the group is not empty; a nonzero preferred id is among its series |
| GroupMerge.ValidateReferences | Shoko.Server/API/v3/Models/Shoko/Group.cs:242-284 | the parent, child-group and series errors, in the order they are recorded, and the lists looked up |
| GroupMerge.Validate | Shoko.Server/API/v3/Models/Shoko/Group.cs:242-306 | appends all validation errors to the model state in order; hands back the child groups, series and preferred series |
| GroupMerge.NewParent | Shoko.Server/API/v3/Models/Shoko/Group.cs:318-319 | an absent parent id keeps the parent, 0 clears it, any other id replaces it |
| GroupMerge.MoveChildGroups | Shoko.Server/API/v3/Models/Shoko/Group.cs:321-331 | every child group ends up under the group; only the groups that moved are saved, in order; the repository stays keyed |
| GroupMerge.ReparentChildrenSpec | Shoko.Server/API/v3/Models/Shoko/Group.cs:321-331 | only parent ids change: each existing requested group is under the group, every other group keeps its record |
| GroupMerge.ReparentKeepsValid | Shoko.Server/API/v3/Models/Shoko/Group.cs:321-331 | moving child groups keeps each record under its own positive id |
| GroupMerge.ChildSavesExact | Shoko.Server/API/v3/Models/Shoko/Group.cs:324-330 | saved are exactly the requested existing groups not already under the group, each once |
| GroupMerge.MoveSeries | Shoko.Server/API/v3/Models/Shoko/Group.cs:334-336 | each requested series is moved into the group, in order |
| GroupMerge.MergeNaming | Shoko.Server/API/v3/Models/Shoko/Group.cs:346-386 | flag absent or true: the text changes exactly for a non-blank, different request, which locks it, and true always locks. Flag absent with no change: the lock is kept. Flag false: the lock is cleared and the text resets to the series-derived one when there is one |
| GroupMerge.ResetSeries | Shoko.Server/API/v3/Models/Shoko/Group.cs:364 | a reset has no source series exactly when there is no preferred series, no main series and no series at all |
| GroupMerge.ApplyNaming | Shoko.Server/API/v3/Models/Shoko/Group.cs:344-386 | name and description follow the naming rule; nothing else changes |
| GroupMerge.MoveToParent | Shoko.Server/API/v3/Models/Shoko/Group.cs:317-319 | an absent parent id changes nothing; otherwise the group and its stored record move under the new parent (none for 0); the repository stays keyed |
| GroupMerge.MergedGroupRecord | Shoko.Server/API/v3/Models/Shoko/Group.cs:317-331 | after the moves an existing group's stored record is under the requested parent, and groups neither moved nor merged keep their records |
| GroupMerge.Regroup | Shoko.Server/API/v3/Models/Shoko/Group.cs:312-342 | a new group is saved first and gets its id; the group and its stored record move under the parent, then child groups and series move; the main series is set only when the request names one |
| GroupMerge.RaiseSeriesUpdated | Shoko.Server/API/v3/Models/Shoko/Group.cs:392-393 | one updated event per requested series, in order |
| GroupMerge.ApplyMerge | Shoko.Server/API/v3/Models/Shoko/Group.cs:312-393 | the whole update half: ids, parent, moves, main series, naming, stats and events, in that order |
| GroupMerge.MergeWithExisting | Shoko.Server/API/v3/Models/Shoko/Group.cs:240-397 | every error is accumulated before returning. With any error, neither the group nor the repositories change. Otherwise the group and repositories reach the state above and the repositories stay keyed |
| UserRepository.JMMUserRepository.Save | Shoko.Server/Repositories/Cached/JMMUserRepository.cs:30-55 | a new user is saved first under the assigned id; the user is then saved again; the filters are refreshed only when asked and the comparison with the stored record (none for a new user) reports a change; the cache stays keyed |
| UserRepository.JMMUserRepository.SaveAndRefresh | Shoko.Server/Repositories/Cached/JMMUserRepository.cs:25-28 | saving always asks for the filter refresh |
| UserRepository.UpsertKeyed | Shoko.Server/Repositories/Cached/JMMUserRepository.cs:38 | saving keeps the cache keyed and brings in no record other than the saved one |
| UserRepository.UpsertFind | Shoko.Server/Repositories/Cached/JMMUserRepository.cs:48 | after saving, the user's id finds the saved record |
| UserRepository.UpsertOthers | Shoko.Server/Repositories/Cached/JMMUserRepository.cs:48 | saving changes no record stored under another id |
| UserRepository.UpsertTwice | Shoko.Server/Repositories/Cached/JMMUserRepository.cs:35-48 | saving the same user twice leaves the cache as saving it once |
| UserRepository.JMMUserRepository.GetByUsername | Shoko.Server/Repositories/Cached/JMMUserRepository.cs:58-65 | a cached user whose name matches ignoring case, and none exactly when no name matches |
| UserRepository.UsernameCaseInsensitive | Shoko.Server/Repositories/Cached/JMMUserRepository.cs:62-63 | two queries that differ only in case find the same user |
| UserRepository.JMMUserRepository.GetAniDBUsers | Shoko.Server/Repositories/Cached/JMMUserRepository.cs:68-74 | exactly the cached users whose AniDB flag is 1 |
| UserRepository.JMMUserRepository.GetTraktUsers | Shoko.Server/Repositories/Cached/JMMUserRepository.cs:76-82 | exactly the cached users whose Trakt flag is 1 |
| UserRepository.JMMUserRepository.AuthenticateUser | Shoko.Server/Repositories/Cached/JMMUserRepository.cs:84-94 | a user matching both name (ignoring case) and hashed password, a missing password hashed as empty; none exactly when no user matches both |
| UserRepository.JMMUserRepository.GetTotalRecordCount | Shoko.Server/Repositories/Cached/JMMUserRepository.cs:138-144 | the number of distinct cache keys |
| UserRepository.KeyedCount | Shoko.Server/Repositories/Cached/JMMUserRepository.cs:142 | a keyed cache has as many keys as users |
| UserRepository.UserIdsMembers | Shoko.Server/Repositories/Cached/JMMUserRepository.cs:142 | the key set holds exactly the ids of the cached users |
| UserRepository.JMMUserRepository.RemoveUser | Shoko.Server/Repositories/Cached/JMMUserRepository.cs:96-136 | with validation and no other administrator: false, nothing changes. Otherwise true: every filter is stripped of the user, the changed ones are saved, the per-user records are deleted, the user leaves the cache |
| UserRepository.RemovalKeepsAnAdmin | Shoko.Server/Repositories/Cached/JMMUserRepository.cs:99-104 | a removal the guard lets through leaves an administrator in the cache; a sole administrator fails the guard |
| UserRepository.JMMUserRepository.StripFilters | Shoko.Server/Repositories/Cached/JMMUserRepository.cs:106-126 | strips every filter in place and returns the changed ones, in order |
| UserRepository.StripAllSpec | Shoko.Server/Repositories/Cached/JMMUserRepository.cs:106-126 | no filter keeps an entry for the user; every other user's entries and every filter id are unchanged |
| UserRepository.ChangedFiltersExact | Shoko.Server/Repositories/Cached/JMMUserRepository.cs:106-127 | the saved filters are exactly the stripped filters that held an entry for the user |
| UserRepository.NoEntryNotSaved | Shoko.Server/Repositories/Cached/JMMUserRepository.cs:122-127 | when no filter holds an entry for the user, nothing is saved |
| UserRepository.RemoveByIdSpec | Shoko.Server/Repositories/Cached/JMMUserRepository.cs:134 | removal takes out exactly the user under the id |
| UserRepository.RemoveKeepsKeyed | Shoko.Server/Repositories/Cached/JMMUserRepository.cs:134 | removal keeps the cache keyed |

## Left out

### General

- I/O and concurrency: UDP send and receive, `lock`/`GlobalLock`, database sessions and logging are left out. Only the string building, parsing and state changes are modelled.
- Service and repository calls:
  - Calls whose code lies outside these files are recorded as effect-log entries, and their inner workings are left out.
  - The group-side calls are `RepoFactory.*.Save`, `MoveSeries`, `SetMainSeries`, `UpdateStatsFromTopLevel` and `OnSeriesUpdated`.
  - The user-side calls are `UpdateGroupFilters` and the deletes of per-user records.
  - The four per-user record deletes in `RemoveUser` are one entry.
- Out of scope:
  - `AniDB_Character`, `AniDB_Anime_Staff` and `IConnectivityMonitor` are column bags or an interface without behaviour.
  - The `Group` constructor and `GroupSizes` are DTO mapping that is not part of this model.
  - The `CreateOrUpdateGroupBody(SVR_AnimeGroup)` constructor copies fields only.
- `UpdateEntityReferenceStrings` and `DateTimeUpdated`: bookkeeping of the stored records, not modelled.

### ResolutionFilter

- `ReferenceEquals` is modelled as equality of values, which never changes the verdict (`EqualsCharacterised`).
- `FilterExpression`'s own `Equals` and `GetHashCode` are not part of this model. The base part is an opaque kind, equal for equal kinds.
- The numeric values of `HashCode.Combine` and of string hashes are not the runtime's. Only "equal implies equal hash" is stated.
- `HelpDescription` is a constant text.
- ResolutionFilter.HasResolutionExpression: the parameter is taken to be a non-null string, fixed at construction. The parameterless constructor and the public setter (Shoko.Server/Filters/Files/HasResolutionExpression.cs:12-14) can leave it null; `Contains(null)` and the equality of two null parameters are not modelled.

### AniDBFile

- AniDBFile.StateFlags: `GetFile_State` is not part of this model. The bit values are those of the AniDB UDP API Definition: CRC ok 1, CRC error 2, version 2 to 5 as 4 to 32, uncensored 64, censored 128. `Chaptered` is assumed to be 4096.
- AniDBFile.EnumParse: `Enum.Parse` is modelled for the numeric spellings AniDB sends. Member names are not accepted.
- AniDBFile.ParseView: the view date is milliseconds since the Unix epoch, with the `long` wrap-around of `viewTime * 1000L` and the calendar-range exception of `AddMilliseconds`. Time zones and `DateTime` values are not modelled.
- AniDBFile.PairXRefs: `Batch(2)` is not part of this model. Its buckets are taken to hold two tokens each, except a last bucket of one token when the count is odd.
- AniDBFile.QualityIgnoresCaseAndSpaces: `ToLower` maps the ASCII letters only. Culture-specific lower-casing of other letters is not modelled. The same holds for `AniDBFile.SourceIgnoresCaseAndHyphens`.

### GroupMerge

- GroupMerge.IsDescendantOf: `SVR_AnimeGroup.IsDescendantOf` is not part of this model. It is modelled as "some proper ancestor is one of the ids", following parents through the repository for at most as many steps as there are groups. That bound finds every ancestor reachable without repeating a group (`ChainFuelCovers`). A cycle in the stored parent links, where a walk in the server would not end, is cut off by the bound.
- GroupMerge.MergeWithExisting, repository reads:
  - The group's series list and main series are read as they were before the merge.
  - In the server they are computed properties. They can change once `SetMainSeries` and the series moves have run, and that change is not captured.
- GroupMerge.MergeWithExisting, saving a new group: the new group's record is not added to the group map. The stats update is recorded against the group's own id, not its top-level group, because `TopLevelAnimeGroup` is not part of this model.
- GroupMerge.MergeWithExisting, aliasing: a group listed among its own child groups is updated through the repository record only, not through the group object.

### UserRepository

- UserRepository.JMMUserRepository.Save:
  - `SVR_JMMUser.CompareUser` and `Digest.Hash` are parameters.
  - The stored record is the cached one.
  - A saved id is taken to be positive, and the id the database assigns to a new user is taken to be unused.
- UserRepository.JMMUserRepository.GetByUsername: `InvariantCultureIgnoreCase` is modelled as ASCII case folding. The same holds for `AuthenticateUser`.
