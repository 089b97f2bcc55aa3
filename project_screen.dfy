/**
 * The project screen's mutations: the due-date setter, add, delete, reset and
 * the edit popup's save. The running application owns the document; the
 * screen keeps its own form state and writes through to the document.
 */
module ProjectScreen {
  import opened Wrappers
  import opened PyText
  import opened PyList
  import opened Dates
  import opened Records
  import opened ProjectList
  import opened MainApp

  /** Every due date is empty or passes the screen's due-date test. */
  predicate DueDatesWellFormed(ps: seq<Project>) {
    forall p | p in ps :: p.dueDate == "" || IsValidDueDate(p.dueDate)
  }

  lemma WellFormedAppend(ps: seq<Project>, p: Project)
    requires DueDatesWellFormed(ps) && (p.dueDate == "" || IsValidDueDate(p.dueDate))
    ensures DueDatesWellFormed(ps + [p])
  {
  }

  /** Adding a record whose due date passes the test keeps every due date of the document well formed. */
  lemma WellFormedAdded(data: AppData, p: Project)
    requires p.dueDate == "" || IsValidDueDate(p.dueDate)
    ensures DueDatesWellFormed(ProjectsOf(data)) ==> DueDatesWellFormed(ProjectsOf(WithAdded(data, p)))
  {
    if DueDatesWellFormed(ProjectsOf(data)) {
      WellFormedAppend(ProjectsOf(data), p);
    }
  }

  lemma WellFormedUpdate(ps: seq<Project>, i: nat, p: Project)
    requires i < |ps| && DueDatesWellFormed(ps) && (p.dueDate == "" || IsValidDueDate(p.dueDate))
    ensures DueDatesWellFormed(ps[i := p])
  {
    forall q | q in ps[i := p] ensures q.dueDate == "" || IsValidDueDate(q.dueDate) {
      var k :| 0 <= k < |ps| && ps[i := p][k] == q;
      if k != i {
        assert ps[k] in ps;
      }
    }
  }

  /** The record `add_project` appends. */
  function NewProject(name: string, category: string, dueDate: string, recurrence: string): Project {
    Project(name, Some(category), NotStarted, PinEmoji, dueDate, recurrence, [])
  }

  /** `app_data["projects"] = app_data.get("projects", []) + [project]`. */
  function WithAdded(data: AppData, p: Project): AppData {
    data.(projects := Some(ProjectsOf(data) + [p]))
  }

  /** Adding puts exactly one record at the end; the others keep their order and values, the settings are untouched. */
  lemma AddedAtEnd(data: AppData, p: Project)
    ensures |ProjectsOf(WithAdded(data, p))| == |ProjectsOf(data)| + 1
    ensures ProjectsOf(WithAdded(data, p))[..|ProjectsOf(data)|] == ProjectsOf(data)
    ensures ProjectsOf(WithAdded(data, p))[|ProjectsOf(data)|] == p
    ensures WithAdded(data, p).settings == data.settings
  {
    assert ProjectsOf(WithAdded(data, p)) == ProjectsOf(data) + [p];
  }

  /**
   * A project after a save from the edit popup: trimmed name, the chosen
   * category, recurrence and status, the coerced due date, and one history
   * entry holding the fields before and after the edit.
   */
  function Edited(p: Project, name: string, category: string, dueDate: string,
                  recurrence: string, status: string, timestamp: string): Project
  {
    var q := p.(name := Strip(name), category := Some(category), recurrence := recurrence,
                status := status, dueDate := CoerceDueDate(dueDate));
    q.(history := p.history + [HistoryEntry(timestamp, SnapshotOf(p), SnapshotOf(q))])
  }

  /** What a save stores: every field the popup submits, and exactly one new history entry at the end. */
  lemma EditedFields(p: Project, name: string, category: string, dueDate: string,
                     recurrence: string, status: string, timestamp: string)
    ensures var r := Edited(p, name, category, dueDate, recurrence, status, timestamp);
      && IsStripOf(r.name, name)
      && r.category == Some(category) && r.recurrence == recurrence && r.status == status
      && r.emoji == p.emoji
      && (IsValidDueDate(dueDate) ==> r.dueDate == dueDate)
      && (!IsValidDueDate(dueDate) ==> r.dueDate == "")
      && |r.history| == |p.history| + 1 && r.history[..|p.history|] == p.history
      && r.history[|p.history|] == HistoryEntry(timestamp, SnapshotOf(p), SnapshotOf(r))
  {
    var r := Edited(p, name, category, dueDate, recurrence, status, timestamp);
    assert r.history[..|p.history|] == p.history;
  }

  /** A save keeps every due date in the list empty or valid. */
  lemma WellFormedEdited(ps: seq<Project>, index: nat, name: string, category: string, dueDate: string,
                         recurrence: string, status: string, timestamp: string)
    requires index < |ps|
    ensures DueDatesWellFormed(ps) ==>
      DueDatesWellFormed(ps[index := Edited(ps[index], name, category, dueDate, recurrence, status, timestamp)])
  {
    if DueDatesWellFormed(ps) {
      EditedFields(ps[index], name, category, dueDate, recurrence, status, timestamp);
      WellFormedUpdate(ps, index, Edited(ps[index], name, category, dueDate, recurrence, status, timestamp));
    }
  }

  /** Each entry of `h` starts where the previous one ended. */
  predicate ChainedEntries(h: seq<HistoryEntry>) {
    forall k :: 0 < k < |h| ==> h[k].before == h[k - 1].after
  }

  /**
   * A history read as a chain of edits: each entry starts where the previous
   * one ended, and the last one ends at the project's current fields.
   */
  predicate HistoryChained(p: Project) {
    ChainedEntries(p.history) && (p.history != [] ==> p.history[|p.history| - 1].after == SnapshotOf(p))
  }

  lemma ChainSnoc(h: seq<HistoryEntry>, e: HistoryEntry)
    requires ChainedEntries(h)
    requires h != [] ==> e.before == h[|h| - 1].after
    ensures ChainedEntries(h + [e])
  {
    var g := h + [e];
    forall k | 0 < k < |g| ensures g[k].before == g[k - 1].after {
      if k < |h| {
        assert g[k] == h[k] && g[k - 1] == h[k - 1];
      }
    }
  }

  /** Saving an edit keeps the history a chain. */
  lemma EditedKeepsChain(p: Project, name: string, category: string, dueDate: string,
                         recurrence: string, status: string, timestamp: string)
    requires HistoryChained(p)
    ensures HistoryChained(Edited(p, name, category, dueDate, recurrence, status, timestamp))
  {
    var r := Edited(p, name, category, dueDate, recurrence, status, timestamp);
    var e := HistoryEntry(timestamp, SnapshotOf(p), SnapshotOf(r));
    EditedFields(p, name, category, dueDate, recurrence, status, timestamp);
    assert r.history == p.history + [e];
    ChainSnoc(p.history, e);
  }

  /** The values the edit popup submits. */
  datatype EditForm = EditForm(name: string, category: string, dueDate: string,
                               recurrence: string, status: string, timestamp: string)

  predicate Accepted(e: EditForm) {
    Strip(e.name) != []
  }

  /** One save; a form with an empty trimmed name changes nothing. */
  function Save(p: Project, e: EditForm): Project {
    if Accepted(e) then Edited(p, e.name, e.category, e.dueDate, e.recurrence, e.status, e.timestamp) else p
  }

  /** A run of saves on one project, first to last. */
  function ApplyEdits(p: Project, es: seq<EditForm>): Project
    decreases |es|
  {
    if es == [] then p else ApplyEdits(Save(p, es[0]), es[1..])
  }

  /**
   * After a run of saves the history has grown by one entry per accepted
   * save, the old entries are kept, it is still a chain, and a project created
   * by `add_project` has a first entry that starts at its creation fields.
   */
  lemma {:induction false} ApplyEditsHistory(p: Project, es: seq<EditForm>)
    requires HistoryChained(p)
    ensures |ApplyEdits(p, es).history| == |p.history| + Count(es, Accepted)
    ensures ApplyEdits(p, es).history[..|p.history|] == p.history
    ensures HistoryChained(ApplyEdits(p, es))
    ensures p.history == [] && Count(es, Accepted) > 0 ==> ApplyEdits(p, es).history[0].before == SnapshotOf(p)
    decreases |es|
  {
    if es != [] {
      var q := Save(p, es[0]);
      SaveStep(p, es[0]);
      ApplyEditsHistory(q, es[1..]);
      var h := ApplyEdits(q, es[1..]).history;
      assert ApplyEdits(p, es) == ApplyEdits(q, es[1..]);
      PrefixOfPrefix(h, q.history, p.history);
      if p.history == [] && Accepted(es[0]) {
        assert h[0] == h[..|q.history|][0];
      }
    }
  }

  lemma PrefixOfPrefix<T>(h: seq<T>, a: seq<T>, b: seq<T>)
    requires |b| <= |a| <= |h| && h[..|a|] == a && a[..|b|] == b
    ensures h[..|b|] == b
  {
    assert h[..|b|] == h[..|a|][..|b|];
  }

  /** One save, seen on the history alone. */
  lemma SaveStep(p: Project, e: EditForm)
    requires HistoryChained(p)
    ensures |Save(p, e).history| == |p.history| + (if Accepted(e) then 1 else 0)
    ensures Save(p, e).history[..|p.history|] == p.history
    ensures HistoryChained(Save(p, e))
    ensures p.history == [] && Accepted(e) ==> Save(p, e).history[0].before == SnapshotOf(p)
  {
    if Accepted(e) {
      EditedFields(p, e.name, e.category, e.dueDate, e.recurrence, e.status, e.timestamp);
      EditedKeepsChain(p, e.name, e.category, e.dueDate, e.recurrence, e.status, e.timestamp);
    }
  }

  // Which records share their history, across a delete

  /**
   * Deleting the first record equal to `x` leaves every other record one
   * place earlier or where it was, and every position still marked as
   * edited points at a record of the shorter list, the same record as
   * before.
   */
  lemma DeleteTracksSharing(ps: seq<Project>, shared: set<nat>, x: Project)
    requires x in ps
    ensures var i, rest := FirstIndex(ps, x), RemoveFirst(ps, x);
      && |rest| == |ps| - 1
      && (forall j | 0 <= j < |rest| :: rest[j] == ps[if j < i then j else j + 1])
      && ((forall k | k in shared :: k < |ps|) ==> forall k | k in SharedAfterRemoval(shared, i) :: k < |rest|)
  {
    var i := FirstIndex(ps, x);
    RemoveFirstPosition(ps, x);
    if forall k | k in shared :: k < |ps| {
      forall k | k in SharedAfterRemoval(shared, i) ensures k < |ps| - 1 {
        SharedAfterRemovalIff(shared, i, k);
      }
    }
  }

  /**
   * Once the only edited record is deleted no record of the document holds
   * itself any more, and the next start loads the document as it stands.
   */
  lemma DeleteEditedThenRestart(data: AppData, shared: set<nat>, x: Project)
    requires x in ProjectsOf(data) && shared <= {FirstIndex(ProjectsOf(data), x)}
    ensures var after := data.(projects := Some(RemoveFirst(ProjectsOf(data), x)));
      && SharedAfterRemoval(shared, FirstIndex(ProjectsOf(data), x)) == {}
      && Loaded(WrittenFile(after, SharedAfterRemoval(shared, FirstIndex(ProjectsOf(data), x)))) == after
  {
    var i := FirstIndex(ProjectsOf(data), x);
    forall k | k in SharedAfterRemoval(shared, i) ensures false {
      SharedAfterRemovalIff(shared, i, k);
    }
  }

  /**
   * In a document of two records whose first holds itself, the file left
   * behind loads with no projects at all; deleting that record leaves one
   * that loads with the second.
   */
  lemma FirstOfTwoShared(settings: Settings, e: Project, b: Project)
    ensures var before, after := AppData(Some([e, b]), settings), AppData(Some(RemoveFirst([e, b], e)), settings);
      && ProjectsOf(Loaded(WrittenFile(before, {0}))) == []
      && ProjectsOf(after) == [b]
      && Loaded(WrittenFile(after, SharedAfterRemoval({0}, FirstIndex([e, b], e)))) == after
  {
    var before := AppData(Some([e, b]), settings);
    assert 0 in {0} && 0 < |ProjectsOf(before)|;
    DeleteEditedThenRestart(before, {0}, e);
  }

  /**
   * An example of the data loss: in a document of two records, an accepted
   * edit of the first leaves a file that loads with no projects at all, and
   * deleting the edited record again leaves one that loads with the second.
   */
  lemma EditThenRestartLosesProjects(settings: Settings, a: Project, b: Project, name: string, category: string,
                                     dueDate: string, recurrence: string, status: string, timestamp: string)
    ensures var edited := Edited(a, name, category, dueDate, recurrence, status, timestamp);
      var afterEdit := AppData(Some([edited, b]), settings);
      var afterDelete := AppData(Some(RemoveFirst([edited, b], edited)), settings);
      && ProjectsOf(Loaded(WrittenFile(afterEdit, {} + {0}))) == []
      && ProjectsOf(afterDelete) == [b]
      && Loaded(WrittenFile(afterDelete, SharedAfterRemoval({0}, FirstIndex([edited, b], edited)))) == afterDelete
  {
    var edited := Edited(a, name, category, dueDate, recurrence, status, timestamp);
    assert {} + {0} == {0};
    FirstOfTwoShared(settings, edited, b);
  }

  /** The project screen: its form state and the application it writes to. */
  class ProjectScreen {
    var category: string
    var dueDate: string
    var recurrence: string
    var searchText: string
    var sortBy: string
    var filterStatus: string
    var filterRecurrence: string
    /** The texts of the name box, the due-date box and the recurrence spinner. */
    var projectInput: string
    var dueDateInput: string
    var recurrenceSpinner: string
    const app: MainApp

    /** The stored due date only ever holds a date that passed the test. */
    ghost predicate Valid()
      reads this
    {
      dueDate == "" || IsValidDueDate(dueDate)
    }

    constructor(app: MainApp)
      ensures this.app == app
      ensures category == "General" && dueDate == "" && recurrence == NoRecurrence
      ensures searchText == "" && sortBy == "Name" && filterStatus == "All" && filterRecurrence == "All"
      ensures projectInput == "" && dueDateInput == "" && recurrenceSpinner == NoRecurrence
      ensures Valid()
    {
      this.app := app;
      category := "General";
      dueDate := "";
      recurrence := NoRecurrence;
      searchText := "";
      sortBy := "Name";
      filterStatus := "All";
      filterRecurrence := "All";
      projectInput := "";
      dueDateInput := "";
      recurrenceSpinner := NoRecurrence;
    }

    /** Keeps an entered due date that passes the test; otherwise clears it and its box. */
    method SetDueDate(value: string)
      modifies this`dueDate, this`dueDateInput
      ensures dueDate == CoerceDueDate(value)
      ensures dueDateInput == if IsValidDueDate(value) then old(dueDateInput) else ""
      ensures Valid()
    {
      if HasDatePrefix(value) {
        if Strptime(value).Some? {
          dueDate := value;
        } else {
          dueDate := "";
          dueDateInput := "";
        }
      } else {
        dueDate := "";
        dueDateInput := "";
      }
    }

    /** Stores the search text lower-cased, so the filter compares lower case with lower case. */
    method SetSearchText(value: string)
      modifies this`searchText
      ensures searchText == Lower(value)
      ensures Lower(searchText) == searchText
    {
      searchText := Lower(value);
      LowerIdempotent(value);
    }

    /**
     * Appends a new record built from the form, then clears the form; with a
     * name that is empty after trimming nothing changes.
     */
    method AddProject()
      requires Valid()
      requires app.Valid()
      modifies this`projectInput, this`dueDate, this`dueDateInput, this`recurrence, this`recurrenceSpinner, app`appData
      ensures Strip(old(projectInput)) == [] ==> unchanged(this) && app.appData == old(app.appData)
      ensures Strip(old(projectInput)) != [] ==>
        app.appData == WithAdded(old(app.appData), NewProject(Strip(old(projectInput)), category, old(dueDate), old(recurrence)))
      ensures Strip(old(projectInput)) != [] ==> projectInput == "" && dueDate == "" && dueDateInput == ""
      ensures Strip(old(projectInput)) != [] ==> recurrence == NoRecurrence && recurrenceSpinner == NoRecurrence
      ensures DueDatesWellFormed(ProjectsOf(old(app.appData))) ==> DueDatesWellFormed(ProjectsOf(app.appData))
      ensures Valid() && app.Valid()
    {
      var name := Strip(projectInput);
      if name != [] {
        AppendProject(name);
      }
    }

    /** The part of `add_project` after the name check: append the record, then clear the form. */
    method AppendProject(name: string)
      requires Valid()
      requires app.Valid()
      modifies this`projectInput, this`dueDate, this`dueDateInput, this`recurrence, this`recurrenceSpinner, app`appData
      ensures app.appData == WithAdded(old(app.appData), NewProject(name, category, old(dueDate), old(recurrence)))
      ensures projectInput == "" && dueDate == "" && dueDateInput == ""
      ensures recurrence == NoRecurrence && recurrenceSpinner == NoRecurrence
      ensures DueDatesWellFormed(ProjectsOf(old(app.appData))) ==> DueDatesWellFormed(ProjectsOf(app.appData))
      ensures app.Valid()
    {
      var project := NewProject(name, category, dueDate, recurrence);
      WellFormedAdded(app.appData, project);
      AddedAtEnd(app.appData, project);
      app.appData := WithAdded(app.appData, project);
      projectInput, dueDate, dueDateInput := "", "", "";
      recurrence, recurrenceSpinner := NoRecurrence, NoRecurrence;
    }

    /**
     * Removes the first record equal to `project`; without one the document
     * is unchanged. The records after it move down one place, and so do
     * their marks.
     */
    method DeleteProject(project: Project)
      requires app.Valid()
      modifies app`appData, app`selfSharing
      ensures project in ProjectsOf(old(app.appData)) ==>
        app.appData == old(app.appData).(projects := Some(RemoveFirst(ProjectsOf(old(app.appData)), project)))
      ensures project in ProjectsOf(old(app.appData)) ==>
        app.selfSharing == SharedAfterRemoval(old(app.selfSharing), FirstIndex(ProjectsOf(old(app.appData)), project))
      ensures project !in ProjectsOf(old(app.appData)) ==>
        app.appData == old(app.appData) && app.selfSharing == old(app.selfSharing)
      ensures DueDatesWellFormed(ProjectsOf(old(app.appData))) ==> DueDatesWellFormed(ProjectsOf(app.appData))
      ensures app.Valid()
    {
      var projects := ProjectsOf(app.appData);
      if project in projects {
        var remaining := RemoveFirst(projects, project);
        RemoveFirstCounts(projects, project);
        forall p | p in remaining ensures p in projects {
          assert p in multiset(remaining);
        }
        DeleteTracksSharing(projects, app.selfSharing, project);
        app.appData := app.appData.(projects := Some(remaining));
        app.selfSharing := SharedAfterRemoval(app.selfSharing, FirstIndex(projects, project));
      }
    }

    /** Empties the list; the settings stay, and the next start loads them. */
    method ResetProjects()
      modifies app`appData, app`selfSharing
      ensures app.appData == old(app.appData).(projects := Some([])) && app.selfSharing == {}
      ensures Loaded(WrittenFile(app.appData, app.selfSharing)) == app.appData
      ensures app.Valid()
    {
      app.appData := app.appData.(projects := Some([]));
      app.selfSharing := {};
    }

    /**
     * Saves the edit popup for the record at `index`: with a non-empty trimmed
     * name that record is replaced by its edited form in place, and nothing
     * else in the document changes.
     */
    method SaveProject(index: nat, name: string, category: string, dueDate: string,
                       recurrence: string, status: string, timestamp: string)
      requires app.appData.projects.Some? && index < |app.appData.projects.value|
      requires app.Valid()
      modifies app`appData, app`selfSharing
      ensures Strip(name) == [] ==> app.appData == old(app.appData) && app.selfSharing == old(app.selfSharing)
      ensures Strip(name) != [] ==> app.selfSharing == old(app.selfSharing) + {index}
      ensures Strip(name) != [] ==>
        app.appData == old(app.appData).(projects := Some(old(app.appData.projects.value)[index :=
          Edited(old(app.appData.projects.value[index]), name, category, dueDate, recurrence, status, timestamp)]))
      ensures |ProjectsOf(app.appData)| == |ProjectsOf(old(app.appData))|
      ensures DueDatesWellFormed(ProjectsOf(old(app.appData))) ==> DueDatesWellFormed(ProjectsOf(app.appData))
      ensures app.Valid()
    {
      if Strip(name) != [] {
        StoreEdit(index, name, category, dueDate, recurrence, status, timestamp);
      }
    }

    /**
     * The part of `save_project` after the name check: the record at `index`
     * becomes its edited form, and its history now holds itself.
     */
    method StoreEdit(index: nat, name: string, category: string, dueDate: string,
                     recurrence: string, status: string, timestamp: string)
      requires app.appData.projects.Some? && index < |app.appData.projects.value|
      requires app.Valid()
      modifies app`appData, app`selfSharing
      ensures app.selfSharing == old(app.selfSharing) + {index}
      ensures app.appData == old(app.appData).(projects := Some(old(app.appData.projects.value)[index :=
          Edited(old(app.appData.projects.value[index]), name, category, dueDate, recurrence, status, timestamp)]))
      ensures DueDatesWellFormed(ProjectsOf(old(app.appData))) ==> DueDatesWellFormed(ProjectsOf(app.appData))
      ensures app.Valid()
    {
      var projects := app.appData.projects.value;
      var edited := Edited(projects[index], name, category, dueDate, recurrence, status, timestamp);
      WellFormedEdited(projects, index, name, category, dueDate, recurrence, status, timestamp);
      app.appData := app.appData.(projects := Some(projects[index := edited]));
      app.selfSharing := app.selfSharing + {index};
    }
  }
}
