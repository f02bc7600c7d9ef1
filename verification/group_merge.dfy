/**
 * Creating or updating an anime group from a request body: every problem with the
 * request is recorded against the request field it concerns, and only a request
 * without problems changes anything. A valid request may move the group under a
 * new parent, pull child groups and series into it, and set or reset its name and
 * description. Saving, moving series, choosing the main series, recomputing
 * statistics and raising events are calls into services whose inner workings are
 * not part of this model; each such call is recorded, in order, in an effect log.
 */
module GroupMerge {
  import opened Wrappers
  import opened Text

  // ---------------------------------------------------------------------------
  // Entities
  // ---------------------------------------------------------------------------

  /** A series as the merge sees it: its id, the title used for group names, and its anime's description. */
  datatype Series = Series(id: int, preferredTitle: string, animeDescription: Option<string>)

  /** A group as stored in the group repository: its id, its parent's id, and every series below it. */
  datatype GroupRecord = GroupRecord(id: int, parentID: Option<int>, allSeries: seq<Series>)

  /** The request body; an absent (`None`) field is one the caller left out. */
  datatype CreateOrUpdateGroupBody = CreateOrUpdateGroupBody(
    parentGroupID: Option<int>,
    preferredSeriesID: Option<int>,
    seriesIDs: Option<seq<int>>,
    groupIDs: Option<seq<int>>,
    name: Option<string>,
    description: Option<string>,
    hasCustomName: Option<bool>,
    hasCustomDescription: Option<bool>)

  /** The request fields errors are recorded against. */
  datatype Field = ParentGroupIDField | GroupIDsField | SeriesIDsField | PreferredSeriesIDField

  /** The problems the validation can find; the unknown ids are listed in request order. */
  datatype ModelError =
    | ParentNotFound(parentID: int)
    | ParentBelowChildGroups
    | ParentBelowGroup
    | UnknownChildGroups(groupIDs: seq<int>)
    | UnknownSeries(seriesIDs: seq<int>)
    | EmptyGroup
    | PreferredSeriesNotInGroup(seriesID: int)

  /** One entry of the model-state dictionary. */
  datatype ModelStateEntry = ModelStateEntry(key: Field, error: ModelError)

  /** A call into a service or repository made after validation. */
  datatype Effect =
    | SavedGroup(groupID: int)
    | SavedChildGroup(groupID: int)
    | MovedSeries(seriesID: int, groupID: int)
    | SetMainSeries(groupID: int, mainSeriesID: Option<int>)
    | UpdatedStatsFromTopLevel(groupID: int)
    | SeriesUpdated(seriesID: int)

  /** The group being created (id 0) or updated. */
  class AnimeGroup {
    var id: int
    var parentID: Option<int>
    var groupName: string
    var isManuallyNamed: int
    var description: string
    var overrideDescription: int
    var mainSeries: Option<Series>
    var allSeries: seq<Series>

    constructor (id: int, parentID: Option<int>, groupName: string, isManuallyNamed: int,
                 description: string, overrideDescription: int, mainSeries: Option<Series>, allSeries: seq<Series>)
      ensures this.id == id && this.parentID == parentID && this.groupName == groupName
      ensures this.isManuallyNamed == isManuallyNamed && this.description == description
      ensures this.overrideDescription == overrideDescription
      ensures this.mainSeries == mainSeries && this.allSeries == allSeries
    {
      this.id := id;
      this.parentID := parentID;
      this.groupName := groupName;
      this.isManuallyNamed := isManuallyNamed;
      this.description := description;
      this.overrideDescription := overrideDescription;
      this.mainSeries := mainSeries;
      this.allSeries := allSeries;
    }
  }

  /** Every group is stored under its own, positive, id. */
  predicate GroupsKeyed(groups: map<int, GroupRecord>) {
    forall k :: k in groups ==> k > 0 && groups[k].id == k
  }

  /** Every series is stored under its own, positive, id. */
  predicate SeriesKeyed(series: map<int, Series>) {
    forall k :: k in series ==> k > 0 && series[k].id == k
  }

  /** The group and series repositories, and the log of calls made into the services. */
  class Library {
    var groups: map<int, GroupRecord>
    var series: map<int, Series>
    var effects: seq<Effect>

    /** Records are stored under their own, positive, ids. */
    predicate Valid()
      reads this
    {
      GroupsKeyed(groups) && SeriesKeyed(series)
    }

    constructor (groups: map<int, GroupRecord>, series: map<int, Series>)
      ensures this.groups == groups && this.series == series && effects == []
    {
      this.groups := groups;
      this.series := series;
      effects := [];
    }
  }

  // ---------------------------------------------------------------------------
  // Validation
  // ---------------------------------------------------------------------------

  /**
   * Whether a proper ancestor of group `id` is one of `ids`: the parent chain is
   * followed through the repository and stops at a parent that does not resolve;
   * `fuel` bounds the number of steps.
   */
  predicate IsDescendantOf(groups: map<int, GroupRecord>, id: int, ids: set<int>, fuel: nat)
    decreases fuel
  {
    && fuel > 0
    && id in groups
    && groups[id].parentID.Some?
    && var p := groups[id].parentID.value;
       p in groups && (p in ids || IsDescendantOf(groups, p, ids, fuel - 1))
  }

  /** The ids of a request list, as a set. */
  function IdSet(ids: seq<int>): (r: set<int>)
    ensures forall x :: x in r <==> x in ids
  {
    set id | id in ids
  }

  /** The chain bound the model uses: a chain without repeats visits every group at most once. */
  function ChainFuel(groups: map<int, GroupRecord>): nat {
    |groups.Keys|
  }

  /** The errors about the requested parent. */
  function ParentErrors(body: CreateOrUpdateGroupBody, groupID: int, groups: map<int, GroupRecord>): seq<ModelStateEntry> {
    if body.parentGroupID.None? || body.parentGroupID.value == 0 then []
    else
      var pid := body.parentGroupID.value;
      if pid !in groups then [ModelStateEntry(ParentGroupIDField, ParentNotFound(pid))]
      else
        (if body.groupIDs.Some? && IsDescendantOf(groups, pid, IdSet(body.groupIDs.value), ChainFuel(groups))
         then [ModelStateEntry(ParentGroupIDField, ParentBelowChildGroups)] else [])
        + (if groupID != 0 && IsDescendantOf(groups, pid, {groupID}, ChainFuel(groups))
           then [ModelStateEntry(ParentGroupIDField, ParentBelowGroup)] else [])
  }

  /** The requested ids that resolve (positive ids found in the repository), looked up in request order. */
  function Resolve<T>(m: map<int, T>, ids: seq<int>): (r: seq<T>)
    ensures |r| <= |ids|
  {
    if |ids| == 0 then []
    else
      var id := ids[|ids| - 1];
      Resolve(m, ids[..|ids| - 1]) + (if id > 0 && id in m then [m[id]] else [])
  }

  /** The requested ids that none of the found records carries, in request order. */
  function UnknownIDs(ids: seq<int>, foundIDs: seq<int>): seq<int> {
    if |ids| == 0 then []
    else
      var id := ids[|ids| - 1];
      UnknownIDs(ids[..|ids| - 1], foundIDs) + (if id in foundIDs then [] else [id])
  }

  /** The ids of a list of groups. */
  function GroupIds(gs: seq<GroupRecord>): (r: seq<int>)
    ensures |r| == |gs| && forall i :: 0 <= i < |gs| ==> r[i] == gs[i].id
  {
    seq(|gs|, i requires 0 <= i < |gs| => gs[i].id)
  }

  /** The child groups the request names (none when the field is absent). */
  function ChildGroups(body: CreateOrUpdateGroupBody, groups: map<int, GroupRecord>): seq<GroupRecord> {
    if body.groupIDs.None? then [] else Resolve(groups, body.groupIDs.value)
  }

  /** The series the request names (none when the field is absent). */
  function SeriesList(body: CreateOrUpdateGroupBody, series: map<int, Series>): seq<Series> {
    if body.seriesIDs.None? then [] else Resolve(series, body.seriesIDs.value)
  }

  /** The error about child groups: raised when fewer groups resolved than were requested. */
  function ChildGroupErrors(body: CreateOrUpdateGroupBody, groups: map<int, GroupRecord>): seq<ModelStateEntry> {
    var childGroups := ChildGroups(body, groups);
    if body.groupIDs.Some? && |childGroups| != |body.groupIDs.value| then
      [ModelStateEntry(GroupIDsField, UnknownChildGroups(UnknownIDs(body.groupIDs.value, GroupIds(childGroups))))]
    else []
  }

  /** The error about series: raised when fewer series resolved than were requested. */
  function SeriesErrors(body: CreateOrUpdateGroupBody, series: map<int, Series>): seq<ModelStateEntry> {
    var seriesList := SeriesList(body, series);
    if body.seriesIDs.Some? && |seriesList| != |body.seriesIDs.value| then
      [ModelStateEntry(SeriesIDsField, UnknownSeries(UnknownIDs(body.seriesIDs.value, Ids(seriesList))))]
    else []
  }

  /** Every series of a list of groups, group by group. */
  function SeriesOfGroups(gs: seq<GroupRecord>): seq<Series> {
    if |gs| == 0 then [] else SeriesOfGroups(gs[..|gs| - 1]) + gs[|gs| - 1].allSeries
  }

  /** The ids of a list of series. */
  function Ids(s: seq<Series>): (r: seq<int>)
    ensures |r| == |s| && forall i :: 0 <= i < |s| ==> r[i] == s[i].id
  {
    seq(|s|, i requires 0 <= i < |s| => s[i].id)
  }

  /** `DistinctBy(series => series.AnimeSeriesID)`: the first series of each id, in order. */
  function DistinctById(s: seq<Series>): seq<Series> {
    if |s| == 0 then []
    else
      var prefix := DistinctById(s[..|s| - 1]);
      var last := s[|s| - 1];
      if last.id in Ids(prefix) then prefix else prefix + [last]
  }

  /** The series of the request, of its child groups and of the group itself, without repeated ids. */
  function AllSeriesList(seriesList: seq<Series>, childGroups: seq<GroupRecord>, groupSeries: seq<Series>): seq<Series> {
    DistinctById(seriesList + SeriesOfGroups(childGroups) + groupSeries)
  }

  /** `FirstOrDefault(series => series.AnimeSeriesID == id)`. */
  function FindSeries(s: seq<Series>, id: int): (r: Option<Series>)
    ensures r.Some? ==> r.value in s && r.value.id == id
    ensures r.None? <==> id !in Ids(s)
  {
    if |s| == 0 then None
    else if s[0].id == id then Some(s[0])
    else
      assert Ids(s) == [s[0].id] + Ids(s[1..]);
      FindSeries(s[1..], id)
  }

  /** The errors about an empty result: one against each of the two list fields. */
  function EmptyErrors(allSeries: seq<Series>): seq<ModelStateEntry> {
    if |allSeries| == 0 then [ModelStateEntry(SeriesIDsField, EmptyGroup), ModelStateEntry(GroupIDsField, EmptyGroup)]
    else []
  }

  /** The error about the preferred series: a nonzero id that is not among the group's series. */
  function PreferredErrors(body: CreateOrUpdateGroupBody, allSeries: seq<Series>): seq<ModelStateEntry> {
    if body.preferredSeriesID.Some? && body.preferredSeriesID.value != 0
       && FindSeries(allSeries, body.preferredSeriesID.value).None?
    then [ModelStateEntry(PreferredSeriesIDField, PreferredSeriesNotInGroup(body.preferredSeriesID.value))]
    else []
  }

  /** Every error the validation records, in the order it records them. */
  function ValidationErrors(body: CreateOrUpdateGroupBody, groupID: int, groupSeries: seq<Series>,
                            groups: map<int, GroupRecord>, series: map<int, Series>): seq<ModelStateEntry> {
    var allSeries := AllSeriesList(SeriesList(body, series), ChildGroups(body, groups), groupSeries);
    ParentErrors(body, groupID, groups) + ChildGroupErrors(body, groups) + SeriesErrors(body, series)
      + EmptyErrors(allSeries) + PreferredErrors(body, allSeries)
  }

  // ---------------------------------------------------------------------------
  // Updates
  // ---------------------------------------------------------------------------

  /** The new parent: a missing field keeps it, 0 clears it, any other id replaces it. */
  function NewParent(requested: Option<int>, current: Option<int>): (r: Option<int>)
    ensures requested.None? ==> r == current
    ensures requested == Some(0) ==> r.None?
    ensures requested.Some? && requested.value != 0 ==> r == requested
  {
    match requested
    case None => current
    case Some(p) => if p == 0 then None else Some(p)
  }

  /**
   * The repository once the group has moved under the requested parent: the group is
   * the cached record, so an existing group's own record follows the move.
   */
  function StoreParent(groups: map<int, GroupRecord>, id: int, requested: Option<int>): map<int, GroupRecord> {
    if requested.Some? && id in groups
    then groups[id := groups[id].(parentID := NewParent(requested, groups[id].parentID))]
    else groups
  }

  /** One child group moved under `groupID`, unless it is already there. */
  function MoveUnder(groups: map<int, GroupRecord>, childID: int, groupID: int): map<int, GroupRecord> {
    if childID in groups && groups[childID].parentID != Some(groupID)
    then groups[childID := groups[childID].(parentID := Some(groupID))]
    else groups
  }

  /** The repository after moving each child group, in order, under `groupID`. */
  function ReparentChildren(groups: map<int, GroupRecord>, childIDs: seq<int>, groupID: int): map<int, GroupRecord> {
    if |childIDs| == 0 then groups
    else MoveUnder(ReparentChildren(groups, childIDs[..|childIDs| - 1], groupID), childIDs[|childIDs| - 1], groupID)
  }

  /** The child groups that are saved while moving them: those not yet under `groupID` when their turn comes. */
  function ChildSaves(groups: map<int, GroupRecord>, childIDs: seq<int>, groupID: int): seq<int> {
    if |childIDs| == 0 then []
    else
      var prefix := childIDs[..|childIDs| - 1];
      var c := childIDs[|childIDs| - 1];
      var before := ReparentChildren(groups, prefix, groupID);
      ChildSaves(groups, prefix, groupID) + (if c in before && before[c].parentID != Some(groupID) then [c] else [])
  }

  /** A name or description together with its lock flag (`IsManuallyNamed` or `OverrideDescription`). */
  datatype Naming = Naming(text: string, locked: int)

  /**
   * The name/description rule. With the flag absent or true, a non-blank requested
   * text that differs from the current one replaces it and locks it, and an explicit
   * true locks it regardless; with the flag false, the lock is cleared and the text
   * resets to the series-derived one when there is one.
   */
  function MergeNaming(flag: Option<bool>, requested: Option<string>, current: Naming, reset: Option<string>): (r: Naming)
    ensures flag != Some(false) ==>
      (r.text != current.text <==> !IsNullOrWhiteSpace(requested) && requested.value != current.text)
    ensures flag != Some(false) && r.text != current.text ==> r.text == requested.value && r.locked == 1
    ensures flag == Some(true) ==> r.locked == 1
    ensures flag.None? && r.text == current.text ==> r.locked == current.locked
    ensures flag == Some(false) ==> r.locked == 0 && r.text == reset.GetOr(current.text)
  {
    if flag.GetOr(true) then
      var locked := if flag.Some? then 1 else current.locked;
      if !IsNullOrWhiteSpace(requested) && current.text != requested.value then Naming(requested.value, 1)
      else Naming(current.text, locked)
    else Naming(reset.GetOr(current.text), 0)
  }

  /** The series a reset takes its name and description from: the preferred one, else the main one, else the first. */
  function ResetSeries(preferred: Option<Series>, mainSeries: Option<Series>, allSeries: seq<Series>): (r: Option<Series>)
    ensures r.None? <==> preferred.None? && mainSeries.None? && allSeries == []
  {
    if preferred.Some? then preferred
    else if mainSeries.Some? then mainSeries
    else if |allSeries| > 0 then Some(allSeries[0])
    else None
  }

  /** The title a name reset uses, if any. */
  function ResetName(s: Option<Series>): Option<string> {
    match s
    case None => None
    case Some(x) => Some(x.preferredTitle)
  }

  /** The description a description reset uses, if any: the series' anime description. */
  function ResetDescription(s: Option<Series>): Option<string> {
    match s
    case None => None
    case Some(x) => x.animeDescription
  }

  /** The preferred series the request selects, if it names one that is among the group's series. */
  function PreferredSeries(body: CreateOrUpdateGroupBody, allSeries: seq<Series>): Option<Series> {
    if body.preferredSeriesID.Some? && body.preferredSeriesID.value != 0
    then FindSeries(allSeries, body.preferredSeriesID.value)
    else None
  }

  /** The ids of the child groups the request resolves, in order. */
  function ChildIDs(body: CreateOrUpdateGroupBody, groups: map<int, GroupRecord>): seq<int> {
    GroupIds(ChildGroups(body, groups))
  }

  /** The log entries for saving the moved child groups. */
  function SaveEffects(ids: seq<int>): (r: seq<Effect>)
    ensures |r| == |ids| && forall i :: 0 <= i < |ids| ==> r[i] == SavedChildGroup(ids[i])
  {
    seq(|ids|, i requires 0 <= i < |ids| => SavedChildGroup(ids[i]))
  }

  /** The log entries for moving the requested series into the group. */
  function MoveEffects(s: seq<Series>, groupID: int): (r: seq<Effect>)
    ensures |r| == |s| && forall i :: 0 <= i < |s| ==> r[i] == MovedSeries(s[i].id, groupID)
  {
    seq(|s|, i requires 0 <= i < |s| => MovedSeries(s[i].id, groupID))
  }

  /** The log entries for the series-updated events. */
  function EventEffects(s: seq<Series>): (r: seq<Effect>)
    ensures |r| == |s| && forall i :: 0 <= i < |s| ==> r[i] == SeriesUpdated(s[i].id)
  {
    seq(|s|, i requires 0 <= i < |s| => SeriesUpdated(s[i].id))
  }

  /** The log after a successful merge: `prior`, then every call the merge makes, in order (`savedChildren` are the child groups it saves). */
  function MergeEffects(prior: seq<Effect>, body: CreateOrUpdateGroupBody, oldID: int, newID: int,
                        savedChildren: seq<int>, seriesList: seq<Series>, preferred: Option<Series>): seq<Effect> {
    RegroupEffects(prior, body, oldID, newID, savedChildren, seriesList, preferred)
    + [UpdatedStatsFromTopLevel(newID)]
    + EventEffects(seriesList)
  }

  /** The log after the moves of a successful merge, before its names, stats and events. */
  function RegroupEffects(prior: seq<Effect>, body: CreateOrUpdateGroupBody, oldID: int, newID: int,
                          savedChildren: seq<int>, seriesList: seq<Series>, preferred: Option<Series>): seq<Effect> {
    prior
    + (if oldID == 0 then [SavedGroup(newID)] else [])
    + SaveEffects(savedChildren)
    + MoveEffects(seriesList, newID)
    + (if body.preferredSeriesID.Some? then [SetMainSeries(newID, if preferred.Some? then Some(preferred.value.id) else None)] else [])
  }

  // ---------------------------------------------------------------------------
  // The merge
  // ---------------------------------------------------------------------------

  /**
   * The validation half of `MergeWithExisting`: appends to the model state every
   * error the request has, in the order they are found, and hands back the lists
   * the update half works on.
   */
  method Validate(body: CreateOrUpdateGroupBody, groupID: int, groupSeries: seq<Series>,
                  groups: map<int, GroupRecord>, series: map<int, Series>, modelState: seq<ModelStateEntry>)
    returns (errors: seq<ModelStateEntry>, childGroups: seq<GroupRecord>, seriesList: seq<Series>, preferred: Option<Series>)
    ensures errors == modelState + ValidationErrors(body, groupID, groupSeries, groups, series)
    ensures childGroups == ChildGroups(body, groups) && seriesList == SeriesList(body, series)
    ensures preferred == PreferredSeries(body, AllSeriesList(seriesList, childGroups, groupSeries))
  {
    var found;
    found, childGroups, seriesList := ValidateReferences(body, groupID, groups, series);

    var allSeriesList := AllSeriesList(seriesList, childGroups, groupSeries);
    if |allSeriesList| == 0 {
      found := found + [ModelStateEntry(SeriesIDsField, EmptyGroup), ModelStateEntry(GroupIDsField, EmptyGroup)];
    }
    assert found == ParentErrors(body, groupID, groups) + ChildGroupErrors(body, groups) + SeriesErrors(body, series)
      + EmptyErrors(allSeriesList);

    preferred := None;
    if body.preferredSeriesID.Some? && body.preferredSeriesID.value != 0 {
      preferred := FindSeries(allSeriesList, body.preferredSeriesID.value);
      if preferred.None? {
        found := found + [ModelStateEntry(PreferredSeriesIDField, PreferredSeriesNotInGroup(body.preferredSeriesID.value))];
      }
    }
    assert found == ValidationErrors(body, groupID, groupSeries, groups, series);
    errors := modelState + found;
  }

  /** The first checks of the validation: the parent, the child group ids and the series ids. */
  method ValidateReferences(body: CreateOrUpdateGroupBody, groupID: int,
                            groups: map<int, GroupRecord>, series: map<int, Series>)
    returns (found: seq<ModelStateEntry>, childGroups: seq<GroupRecord>, seriesList: seq<Series>)
    ensures found == ParentErrors(body, groupID, groups) + ChildGroupErrors(body, groups) + SeriesErrors(body, series)
    ensures childGroups == ChildGroups(body, groups) && seriesList == SeriesList(body, series)
  {
    found := [];
    if body.parentGroupID.Some? && body.parentGroupID.value != 0 {
      var pid := body.parentGroupID.value;
      if pid !in groups {
        found := found + [ModelStateEntry(ParentGroupIDField, ParentNotFound(pid))];
      } else {
        if body.groupIDs.Some? && IsDescendantOf(groups, pid, IdSet(body.groupIDs.value), ChainFuel(groups)) {
          found := found + [ModelStateEntry(ParentGroupIDField, ParentBelowChildGroups)];
        }
        if groupID != 0 && IsDescendantOf(groups, pid, {groupID}, ChainFuel(groups)) {
          found := found + [ModelStateEntry(ParentGroupIDField, ParentBelowGroup)];
        }
      }
    }
    assert found == ParentErrors(body, groupID, groups);

    childGroups := ChildGroups(body, groups);
    if body.groupIDs.Some? && |childGroups| != |body.groupIDs.value| {
      found := found + [ModelStateEntry(GroupIDsField, UnknownChildGroups(UnknownIDs(body.groupIDs.value, GroupIds(childGroups))))];
    }
    assert found == ParentErrors(body, groupID, groups) + ChildGroupErrors(body, groups);

    seriesList := SeriesList(body, series);
    if body.seriesIDs.Some? && |seriesList| != |body.seriesIDs.value| {
      found := found + [ModelStateEntry(SeriesIDsField, UnknownSeries(UnknownIDs(body.seriesIDs.value, Ids(seriesList))))];
    }
  }

  /** Moves each child group, in order, under `groupID`, saving those whose parent changes. */
  method MoveChildGroups(lib: Library, childIDs: seq<int>, groupID: int)
    requires lib.Valid()
    modifies lib
    ensures lib.Valid()
    ensures lib.groups == ReparentChildren(old(lib.groups), childIDs, groupID)
    ensures lib.series == old(lib.series)
    ensures lib.effects == old(lib.effects) + SaveEffects(ChildSaves(old(lib.groups), childIDs, groupID))
  {
    var i := 0;
    while i < |childIDs|
      invariant 0 <= i <= |childIDs|
      invariant lib.groups == ReparentChildren(old(lib.groups), childIDs[..i], groupID)
      invariant lib.series == old(lib.series)
      invariant lib.effects == old(lib.effects) + SaveEffects(ChildSaves(old(lib.groups), childIDs[..i], groupID))
    {
      var c := childIDs[i];
      assert childIDs[..i + 1][..i] == childIDs[..i];
      if c in lib.groups && lib.groups[c].parentID != Some(groupID) {
        lib.groups := lib.groups[c := lib.groups[c].(parentID := Some(groupID))];
        lib.effects := lib.effects + [SavedChildGroup(c)];
      }
      i := i + 1;
    }
    assert childIDs[..i] == childIDs;
    ReparentKeepsValid(old(lib.groups), childIDs, groupID);
  }

  /** Moves each requested series, in order, into group `groupID`. */
  method MoveSeries(lib: Library, seriesList: seq<Series>, groupID: int)
    modifies lib
    ensures lib.groups == old(lib.groups) && lib.series == old(lib.series)
    ensures lib.effects == old(lib.effects) + MoveEffects(seriesList, groupID)
  {
    var j := 0;
    while j < |seriesList|
      invariant 0 <= j <= |seriesList|
      invariant lib.groups == old(lib.groups) && lib.series == old(lib.series)
      invariant lib.effects == old(lib.effects) + MoveEffects(seriesList[..j], groupID)
    {
      lib.effects := lib.effects + [MovedSeries(seriesList[j].id, groupID)];
      j := j + 1;
    }
    assert seriesList[..j] == seriesList;
  }

  /** Raises the series-updated event for each requested series, in order. */
  method RaiseSeriesUpdated(lib: Library, seriesList: seq<Series>)
    modifies lib
    ensures lib.groups == old(lib.groups) && lib.series == old(lib.series)
    ensures lib.effects == old(lib.effects) + EventEffects(seriesList)
  {
    var k := 0;
    while k < |seriesList|
      invariant 0 <= k <= |seriesList|
      invariant lib.groups == old(lib.groups) && lib.series == old(lib.series)
      invariant lib.effects == old(lib.effects) + EventEffects(seriesList[..k])
    {
      lib.effects := lib.effects + [SeriesUpdated(seriesList[k].id)];
      k := k + 1;
    }
    assert seriesList[..k] == seriesList;
  }

  /** Applies the name and description rules to the group, resetting from `reset` where asked. */
  method ApplyNaming(group: AnimeGroup, body: CreateOrUpdateGroupBody, reset: Option<Series>)
    modifies group
    ensures
      var name := MergeNaming(body.hasCustomName, body.name, Naming(old(group.groupName), old(group.isManuallyNamed)), ResetName(reset));
      var desc := MergeNaming(body.hasCustomDescription, body.description,
                              Naming(old(group.description), old(group.overrideDescription)), ResetDescription(reset));
      && group.groupName == name.text && group.isManuallyNamed == name.locked
      && group.description == desc.text && group.overrideDescription == desc.locked
    ensures group.id == old(group.id) && group.parentID == old(group.parentID)
    ensures group.mainSeries == old(group.mainSeries) && group.allSeries == old(group.allSeries)
  {
    var name := MergeNaming(body.hasCustomName, body.name, Naming(group.groupName, group.isManuallyNamed), ResetName(reset));
    group.groupName, group.isManuallyNamed := name.text, name.locked;
    var desc := MergeNaming(body.hasCustomDescription, body.description,
                            Naming(group.description, group.overrideDescription), ResetDescription(reset));
    group.description, group.overrideDescription := desc.text, desc.locked;
  }

  /**
   * The update half of `MergeWithExisting`, run once validation found nothing:
   * `childGroups`, `seriesList` and `preferred` are the lists validation resolved.
   */
  method ApplyMerge(body: CreateOrUpdateGroupBody, group: AnimeGroup, lib: Library, childGroups: seq<GroupRecord>,
                    seriesList: seq<Series>, preferred: Option<Series>, assignedID: int)
    requires lib.Valid()
    modifies group, lib
    ensures lib.Valid()
    ensures group.id == (if old(group.id) == 0 then assignedID else old(group.id))
    ensures group.parentID == NewParent(body.parentGroupID, old(group.parentID))
    ensures
      var reset := ResetSeries(preferred, old(group.mainSeries), old(group.allSeries));
      var name := MergeNaming(body.hasCustomName, body.name, Naming(old(group.groupName), old(group.isManuallyNamed)), ResetName(reset));
      var desc := MergeNaming(body.hasCustomDescription, body.description,
                              Naming(old(group.description), old(group.overrideDescription)), ResetDescription(reset));
      && group.groupName == name.text && group.isManuallyNamed == name.locked
      && group.description == desc.text && group.overrideDescription == desc.locked
    ensures group.mainSeries == old(group.mainSeries) && group.allSeries == old(group.allSeries)
    ensures lib.groups == ReparentChildren(StoreParent(old(lib.groups), old(group.id), body.parentGroupID), GroupIds(childGroups), group.id)
    ensures lib.series == old(lib.series)
    ensures lib.effects == MergeEffects(old(lib.effects), body, old(group.id), group.id,
                                        ChildSaves(StoreParent(old(lib.groups), old(group.id), body.parentGroupID), GroupIds(childGroups), group.id), seriesList, preferred)
  {
    Regroup(body, group, lib, childGroups, seriesList, preferred, assignedID);
    ApplyNaming(group, body, ResetSeries(preferred, group.mainSeries, group.allSeries));
    lib.effects := lib.effects + [UpdatedStatsFromTopLevel(group.id)];
    RaiseSeriesUpdated(lib, seriesList);
  }

  /** Moves the group under the requested parent, in the group and in its stored record (`storedID`). */
  method MoveToParent(body: CreateOrUpdateGroupBody, group: AnimeGroup, lib: Library, storedID: int)
    requires lib.Valid()
    modifies group`parentID, lib`groups
    ensures lib.Valid()
    ensures group.parentID == NewParent(body.parentGroupID, old(group.parentID))
    ensures lib.groups == StoreParent(old(lib.groups), storedID, body.parentGroupID)
  {
    if body.parentGroupID.Some? {
      group.parentID := if body.parentGroupID.value == 0 then None else Some(body.parentGroupID.value);
      if storedID in lib.groups {
        lib.groups := lib.groups[storedID := lib.groups[storedID].(parentID := group.parentID)];
      }
    }
  }

  /** Gives a new group its id, then moves it, its child groups and its series, and sets the main series. */
  method Regroup(body: CreateOrUpdateGroupBody, group: AnimeGroup, lib: Library, childGroups: seq<GroupRecord>,
                 seriesList: seq<Series>, preferred: Option<Series>, assignedID: int)
    requires lib.Valid()
    modifies group, lib
    ensures lib.Valid()
    ensures group.id == (if old(group.id) == 0 then assignedID else old(group.id))
    ensures group.parentID == NewParent(body.parentGroupID, old(group.parentID))
    ensures group.groupName == old(group.groupName) && group.isManuallyNamed == old(group.isManuallyNamed)
    ensures group.description == old(group.description) && group.overrideDescription == old(group.overrideDescription)
    ensures group.mainSeries == old(group.mainSeries) && group.allSeries == old(group.allSeries)
    ensures lib.groups == ReparentChildren(StoreParent(old(lib.groups), old(group.id), body.parentGroupID), GroupIds(childGroups), group.id)
    ensures lib.series == old(lib.series)
    ensures lib.effects == RegroupEffects(old(lib.effects), body, old(group.id), group.id,
                                          ChildSaves(StoreParent(old(lib.groups), old(group.id), body.parentGroupID), GroupIds(childGroups), group.id), seriesList, preferred)
  {
    var storedID := group.id;
    // Save a new group to obtain its id.
    if group.id == 0 {
      group.id := assignedID;
      lib.effects := lib.effects + [SavedGroup(assignedID)];
    }
    ghost var saved := old(lib.effects) + (if old(group.id) == 0 then [SavedGroup(group.id)] else []);
    assert lib.effects == saved;

    // Move the group under the new parent.
    MoveToParent(body, group, lib, storedID);

    MoveChildGroups(lib, GroupIds(childGroups), group.id);
    MoveSeries(lib, seriesList, group.id);
    ghost var moved := lib.effects;
    if body.preferredSeriesID.Some? {
      lib.effects := lib.effects + [SetMainSeries(group.id, if preferred.Some? then Some(preferred.value.id) else None)];
    }
    assert lib.effects == moved
      + (if body.preferredSeriesID.Some? then [SetMainSeries(group.id, if preferred.Some? then Some(preferred.value.id) else None)] else []);
  }

  /**
   * `MergeWithExisting`: records every validation error in the model state; when the
   * model state then holds any error, returns without touching the group or the
   * repositories. Otherwise saves a new group to obtain its id (`assignedID`), moves
   * it under the requested parent, moves the child groups and series into it, sets
   * the main series, applies the name and description rules, and recomputes stats.
   */
  method MergeWithExisting(body: CreateOrUpdateGroupBody, group: AnimeGroup, lib: Library,
                           modelState: seq<ModelStateEntry>, assignedID: int)
    returns (ok: bool, errors: seq<ModelStateEntry>)
    requires lib.Valid()
    modifies group, lib
    ensures lib.Valid()
    ensures errors == modelState
      + ValidationErrors(body, old(group.id), old(group.allSeries), old(lib.groups), old(lib.series))
    ensures ok <==> errors == []
    ensures !ok ==> unchanged(group) && unchanged(lib)
    ensures ok ==>
      var seriesList := SeriesList(body, old(lib.series));
      var preferred := PreferredSeries(body, AllSeriesList(seriesList, ChildGroups(body, old(lib.groups)), old(group.allSeries)));
      var reset := ResetSeries(preferred, old(group.mainSeries), old(group.allSeries));
      var name := MergeNaming(body.hasCustomName, body.name, Naming(old(group.groupName), old(group.isManuallyNamed)), ResetName(reset));
      var desc := MergeNaming(body.hasCustomDescription, body.description,
                              Naming(old(group.description), old(group.overrideDescription)), ResetDescription(reset));
      && group.id == (if old(group.id) == 0 then assignedID else old(group.id))
      && group.parentID == NewParent(body.parentGroupID, old(group.parentID))
      && group.groupName == name.text && group.isManuallyNamed == name.locked
      && group.description == desc.text && group.overrideDescription == desc.locked
      && group.mainSeries == old(group.mainSeries) && group.allSeries == old(group.allSeries)
      && lib.groups == ReparentChildren(StoreParent(old(lib.groups), old(group.id), body.parentGroupID), ChildIDs(body, old(lib.groups)), group.id)
      && lib.series == old(lib.series)
      && lib.effects == MergeEffects(old(lib.effects), body, old(group.id), group.id,
                                     ChildSaves(StoreParent(old(lib.groups), old(group.id), body.parentGroupID), ChildIDs(body, old(lib.groups)), group.id), seriesList, preferred)
  {
    var childGroups, seriesList, preferred;
    errors, childGroups, seriesList, preferred := Validate(body, group.id, group.allSeries, lib.groups, lib.series, modelState);
    if errors != [] {
      return false, errors;
    }
    ok := true;
    ApplyMerge(body, group, lib, childGroups, seriesList, preferred, assignedID);
  }

  // ---------------------------------------------------------------------------
  // Properties
  // ---------------------------------------------------------------------------

  /** Moving child groups only changes parent ids: each requested group that exists ends up under `groupID`, every other group keeps its record. */
  lemma {:induction false} ReparentChildrenSpec(groups: map<int, GroupRecord>, childIDs: seq<int>, groupID: int)
    ensures ReparentChildren(groups, childIDs, groupID).Keys == groups.Keys
    ensures forall k :: k in groups && k in childIDs ==>
      ReparentChildren(groups, childIDs, groupID)[k] == groups[k].(parentID := Some(groupID))
    ensures forall k :: k in groups && k !in childIDs ==> ReparentChildren(groups, childIDs, groupID)[k] == groups[k]
  {
    if |childIDs| > 0 {
      var prefix := childIDs[..|childIDs| - 1];
      ReparentChildrenSpec(groups, prefix, groupID);
      assert forall k :: k in childIDs <==> k in prefix || k == childIDs[|childIDs| - 1];
    }
  }

  /**
   * After a merge, an existing group that is not among its own child groups has its
   * stored record under the requested parent, and every group neither moved nor
   * merged keeps its record.
   */
  lemma MergedGroupRecord(groups: map<int, GroupRecord>, id: int, requested: Option<int>, childIDs: seq<int>)
    requires id in groups && id !in childIDs
    ensures var merged := ReparentChildren(StoreParent(groups, id, requested), childIDs, id);
      id in merged && merged[id] == groups[id].(parentID := NewParent(requested, groups[id].parentID))
    ensures var merged := ReparentChildren(StoreParent(groups, id, requested), childIDs, id);
      forall k :: k in groups && k != id && k !in childIDs ==> k in merged && merged[k] == groups[k]
  {
    ReparentChildrenSpec(StoreParent(groups, id, requested), childIDs, id);
  }

  /** Moving child groups keeps the repository keyed by id. */
  lemma ReparentKeepsValid(groups: map<int, GroupRecord>, childIDs: seq<int>, groupID: int)
    requires GroupsKeyed(groups)
    ensures GroupsKeyed(ReparentChildren(groups, childIDs, groupID))
  {
    ReparentChildrenSpec(groups, childIDs, groupID);
  }

  /** Exactly the requested groups that exist and are not already under `groupID` are saved, each once. */
  lemma {:induction false} ChildSavesExact(groups: map<int, GroupRecord>, childIDs: seq<int>, groupID: int)
    ensures forall c :: c in ChildSaves(groups, childIDs, groupID) <==>
      c in childIDs && c in groups && groups[c].parentID != Some(groupID)
    ensures forall i, j :: 0 <= i < j < |ChildSaves(groups, childIDs, groupID)| ==>
      ChildSaves(groups, childIDs, groupID)[i] != ChildSaves(groups, childIDs, groupID)[j]
  {
    if |childIDs| > 0 {
      var prefix := childIDs[..|childIDs| - 1];
      var c := childIDs[|childIDs| - 1];
      ChildSavesExact(groups, prefix, groupID);
      ReparentChildrenSpec(groups, prefix, groupID);
      assert forall k :: k in childIDs <==> k in prefix || k == c;
    }
  }

  /** The unknown ids are exactly the requested ids not among the found ones. */
  lemma {:induction false} UnknownIDsExact(ids: seq<int>, foundIDs: seq<int>)
    ensures forall x :: x in UnknownIDs(ids, foundIDs) <==> x in ids && x !in foundIDs
  {
    if |ids| > 0 {
      UnknownIDsExact(ids[..|ids| - 1], foundIDs);
      assert forall k :: k in ids <==> k in ids[..|ids| - 1] || k == ids[|ids| - 1];
    }
  }

  /** Lookups keep exactly the records of the requested ids that are positive and present. */
  lemma {:induction false} ResolveMembers<T>(m: map<int, T>, ids: seq<int>)
    ensures forall id :: id in ids && id > 0 && id in m ==> m[id] in Resolve(m, ids)
    ensures forall v :: v in Resolve(m, ids) ==> exists id :: id in ids && id > 0 && id in m && m[id] == v
  {
    if |ids| > 0 {
      ResolveMembers(m, ids[..|ids| - 1]);
      assert forall k :: k in ids <==> k in ids[..|ids| - 1] || k == ids[|ids| - 1];
    }
  }

  /** As many records come back as ids were requested exactly when every requested id is positive and present. */
  lemma {:induction false} ResolveComplete<T>(m: map<int, T>, ids: seq<int>)
    ensures |Resolve(m, ids)| == |ids| <==> forall id :: id in ids ==> id > 0 && id in m
  {
    if |ids| > 0 {
      var prefix := ids[..|ids| - 1];
      var id := ids[|ids| - 1];
      ResolveComplete(m, prefix);
      assert forall k :: k in ids <==> k in prefix || k == id;
      if !(id > 0 && id in m) {
        assert |Resolve(m, ids)| == |Resolve(m, prefix)| <= |prefix| < |ids|;
      }
    }
  }

  /** In a repository keyed by id, the ids of the resolved groups are the requested ids that resolve. */
  lemma ResolvedGroupIds(groups: map<int, GroupRecord>, ids: seq<int>)
    requires GroupsKeyed(groups)
    ensures forall x :: x in GroupIds(Resolve(groups, ids)) <==> x in ids && x > 0 && x in groups
  {
    ResolveMembers(groups, ids);
    var r := Resolve(groups, ids);
    forall x | x in GroupIds(r) ensures x in ids && x > 0 && x in groups {
      var i :| 0 <= i < |r| && GroupIds(r)[i] == x;
      assert r[i] in r;
    }
    forall x | x in ids && x > 0 && x in groups ensures x in GroupIds(r) {
      var i :| 0 <= i < |r| && r[i] == groups[x];
      assert GroupIds(r)[i] == x;
    }
  }

  /** In a repository keyed by id, the ids of the resolved series are the requested ids that resolve. */
  lemma ResolvedSeriesIds(series: map<int, Series>, ids: seq<int>)
    requires SeriesKeyed(series)
    ensures forall x :: x in Ids(Resolve(series, ids)) <==> x in ids && x > 0 && x in series
  {
    ResolveMembers(series, ids);
    var r := Resolve(series, ids);
    forall x | x in Ids(r) ensures x in ids && x > 0 && x in series {
      var i :| 0 <= i < |r| && Ids(r)[i] == x;
      assert r[i] in r;
    }
    forall x | x in ids && x > 0 && x in series ensures x in Ids(r) {
      var i :| 0 <= i < |r| && r[i] == series[x];
      assert Ids(r)[i] == x;
    }
  }

  /**
   * The child-group error is recorded exactly when some requested id is not positive
   * or not in the repository, and it lists exactly those ids.
   */
  lemma ChildGroupErrorsExact(body: CreateOrUpdateGroupBody, groups: map<int, GroupRecord>)
    requires GroupsKeyed(groups)
    ensures ChildGroupErrors(body, groups) != [] <==>
      body.groupIDs.Some? && exists id :: id in body.groupIDs.value && !(id > 0 && id in groups)
    ensures ChildGroupErrors(body, groups) != [] ==>
      |ChildGroupErrors(body, groups)| == 1
      && ChildGroupErrors(body, groups)[0].key == GroupIDsField
      && ChildGroupErrors(body, groups)[0].error.UnknownChildGroups?
      && forall x :: x in ChildGroupErrors(body, groups)[0].error.groupIDs <==>
           x in body.groupIDs.value && !(x > 0 && x in groups)
  {
    if body.groupIDs.Some? {
      var ids := body.groupIDs.value;
      ResolveComplete(groups, ids);
      ResolvedGroupIds(groups, ids);
      UnknownIDsExact(ids, GroupIds(Resolve(groups, ids)));
    }
  }

  /**
   * The series error is recorded exactly when some requested id is not positive or
   * not in the repository, and it lists exactly those ids.
   */
  lemma SeriesErrorsExact(body: CreateOrUpdateGroupBody, series: map<int, Series>)
    requires SeriesKeyed(series)
    ensures SeriesErrors(body, series) != [] <==>
      body.seriesIDs.Some? && exists id :: id in body.seriesIDs.value && !(id > 0 && id in series)
    ensures SeriesErrors(body, series) != [] ==>
      |SeriesErrors(body, series)| == 1
      && SeriesErrors(body, series)[0].key == SeriesIDsField
      && SeriesErrors(body, series)[0].error.UnknownSeries?
      && forall x :: x in SeriesErrors(body, series)[0].error.seriesIDs <==>
           x in body.seriesIDs.value && !(x > 0 && x in series)
  {
    if body.seriesIDs.Some? {
      var ids := body.seriesIDs.value;
      ResolveComplete(series, ids);
      ResolvedSeriesIds(series, ids);
      UnknownIDsExact(ids, Ids(Resolve(series, ids)));
    }
  }

  /** The combined list keeps, for every series in it, the first series of the input with that id. */
  lemma {:induction false} DistinctByIdKeepsFirst(s: seq<Series>)
    ensures forall x :: x in DistinctById(s) ==> FindSeries(s, x.id) == Some(x)
  {
    if |s| > 0 {
      var prefix := s[..|s| - 1];
      var last := s[|s| - 1];
      var d := DistinctById(prefix);
      DistinctByIdKeepsFirst(prefix);
      DistinctByIdSameIds(prefix);
      FindSeriesLast(s);
      forall x | x in DistinctById(s) ensures FindSeries(s, x.id) == Some(x) {
        if x in d {
          var i :| 0 <= i < |d| && d[i] == x;
          assert Ids(d)[i] == x.id;
        } else {
          assert x == last && last.id !in Ids(d);
        }
      }
    }
  }

  /** The combined list holds a series of every id of the input, and of no other id. */
  lemma {:induction false} DistinctByIdSameIds(s: seq<Series>)
    ensures forall id :: id in Ids(DistinctById(s)) <==> id in Ids(s)
  {
    if |s| > 0 {
      var prefix := s[..|s| - 1];
      var last := s[|s| - 1];
      DistinctByIdSameIds(prefix);
      assert Ids(s) == Ids(prefix) + [last.id];
      if last.id !in Ids(DistinctById(prefix)) {
        assert Ids(DistinctById(s)) == Ids(DistinctById(prefix)) + [last.id];
      }
    }
  }

  /** No id occurs twice in the combined list. */
  lemma {:induction false} DistinctByIdNoRepeats(s: seq<Series>)
    ensures forall i, j :: 0 <= i < j < |DistinctById(s)| ==> DistinctById(s)[i].id != DistinctById(s)[j].id
  {
    if |s| > 0 {
      var prefix := s[..|s| - 1];
      DistinctByIdNoRepeats(prefix);
    }
  }

  /** The last series of a list only matters to a search for an id that no earlier series has. */
  lemma {:induction false} FindSeriesLast(s: seq<Series>)
    requires |s| > 0
    ensures forall id :: id in Ids(s[..|s| - 1]) ==> FindSeries(s, id) == FindSeries(s[..|s| - 1], id)
    ensures s[|s| - 1].id !in Ids(s[..|s| - 1]) ==> FindSeries(s, s[|s| - 1].id) == Some(s[|s| - 1])
  {
    if |s| > 1 {
      var prefix := s[..|s| - 1];
      assert s[1..][..|s| - 2] == prefix[1..];
      assert Ids(prefix) == [s[0].id] + Ids(prefix[1..]);
      FindSeriesLast(s[1..]);
    }
  }

  /** The group would be empty exactly when the request, its child groups and the group itself bring no series. */
  lemma AllSeriesListEmpty(seriesList: seq<Series>, childGroups: seq<GroupRecord>, groupSeries: seq<Series>)
    ensures AllSeriesList(seriesList, childGroups, groupSeries) == [] <==>
      seriesList == [] && SeriesOfGroups(childGroups) == [] && groupSeries == []
  {
    var all := seriesList + SeriesOfGroups(childGroups) + groupSeries;
    DistinctByIdSameIds(all);
    if all != [] {
      assert Ids(all)[0] in Ids(all);
    }
  }

  /**
   * A request passes validation exactly when: a nonzero parent exists and is below
   * neither a requested child group nor the group; every requested child-group and
   * series id resolves; the group ends up with a series; and a nonzero preferred
   * series is one of them.
   */
  lemma ValidIff(body: CreateOrUpdateGroupBody, groupID: int, groupSeries: seq<Series>,
                 groups: map<int, GroupRecord>, series: map<int, Series>)
    requires GroupsKeyed(groups) && SeriesKeyed(series)
    ensures ValidationErrors(body, groupID, groupSeries, groups, series) == [] <==>
      var allSeries := AllSeriesList(SeriesList(body, series), ChildGroups(body, groups), groupSeries);
      && (body.parentGroupID.Some? && body.parentGroupID.value != 0 ==>
            var pid := body.parentGroupID.value;
            && pid in groups
            && !(body.groupIDs.Some? && IsDescendantOf(groups, pid, IdSet(body.groupIDs.value), ChainFuel(groups)))
            && !(groupID != 0 && IsDescendantOf(groups, pid, {groupID}, ChainFuel(groups))))
      && (body.groupIDs.Some? ==> forall id :: id in body.groupIDs.value ==> id > 0 && id in groups)
      && (body.seriesIDs.Some? ==> forall id :: id in body.seriesIDs.value ==> id > 0 && id in series)
      && allSeries != []
      && (body.preferredSeriesID.Some? && body.preferredSeriesID.value != 0 ==>
            body.preferredSeriesID.value in Ids(allSeries))
  {
    ChildGroupErrorsExact(body, groups);
    SeriesErrorsExact(body, series);
  }

  /** `path` walks up the stored parent links: each id is a stored group whose parent is the next one. */
  predicate AncestorChain(groups: map<int, GroupRecord>, path: seq<int>) {
    && |path| >= 2
    && (forall i :: 0 <= i < |path| - 1 ==> path[i] in groups && groups[path[i]].parentID == Some(path[i + 1]))
    && path[|path| - 1] in groups
  }

  /** No id appears twice in `path`. */
  predicate NoRepeats(path: seq<int>) {
    forall i, j :: 0 <= i < j < |path| ==> path[i] != path[j]
  }

  /** A list without repeats drawn from a set is no longer than the set is large. */
  lemma {:induction false} NoRepeatsBound(path: seq<int>, keys: set<int>)
    requires NoRepeats(path)
    requires forall i :: 0 <= i < |path| ==> path[i] in keys
    ensures |path| <= |keys|
    decreases |path|
  {
    if |path| > 0 {
      var rest := keys - {path[0]};
      assert forall i :: 0 <= i < |path| - 1 ==> path[1..][i] == path[i + 1] && path[i + 1] != path[0];
      NoRepeatsBound(path[1..], rest);
    }
  }

  /** A walk up the parent links that ends in `ids` is found by the fuelled search when the fuel covers its steps. */
  lemma {:induction false} ChainReaches(groups: map<int, GroupRecord>, path: seq<int>, ids: set<int>, fuel: nat)
    requires AncestorChain(groups, path)
    requires path[|path| - 1] in ids
    requires fuel >= |path| - 1
    ensures IsDescendantOf(groups, path[0], ids, fuel)
    decreases |path|
  {
    assert groups[path[0]].parentID == Some(path[1]);
    if path[1] !in ids {
      var rest := path[1..];
      assert forall i :: 0 <= i < |rest| ==> rest[i] == path[i + 1];
      assert rest[|rest| - 1] == path[|path| - 1];
      ChainReaches(groups, rest, ids, fuel - 1);
    }
  }

  /** Conversely, whatever the fuelled search finds is the end of a walk up the parent links of at most `fuel` steps. */
  lemma {:induction false} ReachedByChain(groups: map<int, GroupRecord>, id: int, ids: set<int>, fuel: nat) returns (path: seq<int>)
    requires IsDescendantOf(groups, id, ids, fuel)
    ensures AncestorChain(groups, path) && path[0] == id && path[|path| - 1] in ids
    ensures |path| - 1 <= fuel
    decreases fuel
  {
    var p := groups[id].parentID.value;
    if p in ids {
      path := [id, p];
    } else {
      var rest := ReachedByChain(groups, p, ids, fuel - 1);
      path := [id] + rest;
      assert forall i :: 0 <= i < |rest| ==> path[i + 1] == rest[i];
    }
  }

  /** The model's chain bound covers every walk up the parent links that does not repeat a group. */
  lemma ChainFuelCovers(groups: map<int, GroupRecord>, path: seq<int>, ids: set<int>)
    requires AncestorChain(groups, path) && NoRepeats(path)
    requires path[|path| - 1] in ids
    ensures IsDescendantOf(groups, path[0], ids, ChainFuel(groups))
  {
    NoRepeatsBound(path, groups.Keys);
    ChainReaches(groups, path, ids, ChainFuel(groups));
  }

  /** A parent with one of the requested child groups anywhere above it is rejected. */
  lemma ParentUnderChildRejected(body: CreateOrUpdateGroupBody, groupID: int, groups: map<int, GroupRecord>, path: seq<int>)
    requires GroupsKeyed(groups)
    requires body.parentGroupID.Some? && body.groupIDs.Some?
    requires AncestorChain(groups, path) && NoRepeats(path)
    requires path[0] == body.parentGroupID.value && path[|path| - 1] in body.groupIDs.value
    ensures ModelStateEntry(ParentGroupIDField, ParentBelowChildGroups) in ParentErrors(body, groupID, groups)
  {
    ChainFuelCovers(groups, path, IdSet(body.groupIDs.value));
    assert ParentErrors(body, groupID, groups)[0] == ModelStateEntry(ParentGroupIDField, ParentBelowChildGroups);
  }

  /** A parent with the group being updated anywhere above it is rejected. */
  lemma ParentUnderGroupRejected(body: CreateOrUpdateGroupBody, groupID: int, groups: map<int, GroupRecord>, path: seq<int>)
    requires GroupsKeyed(groups)
    requires body.parentGroupID.Some? && groupID != 0
    requires AncestorChain(groups, path) && NoRepeats(path)
    requires path[0] == body.parentGroupID.value && path[|path| - 1] == groupID
    ensures ModelStateEntry(ParentGroupIDField, ParentBelowGroup) in ParentErrors(body, groupID, groups)
  {
    ChainFuelCovers(groups, path, {groupID});
    var e := ParentErrors(body, groupID, groups);
    assert e[|e| - 1] == ModelStateEntry(ParentGroupIDField, ParentBelowGroup);
  }

  /** A longer walk or a larger target set never loses a detected ancestor. */
  lemma {:induction false} DescendantMonotone(groups: map<int, GroupRecord>, id: int, ids: set<int>, more: set<int>, fuel: nat, moreFuel: nat)
    requires ids <= more && fuel <= moreFuel
    requires IsDescendantOf(groups, id, ids, fuel)
    ensures IsDescendantOf(groups, id, more, moreFuel)
    decreases fuel
  {
    var p := groups[id].parentID.value;
    if p !in ids {
      DescendantMonotone(groups, p, ids, more, fuel - 1, moreFuel - 1);
    }
  }
}
