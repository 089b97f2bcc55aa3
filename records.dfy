/**
 * The persisted document: a list of project records and a settings record.
 * Each project carries six text fields and its edit history. `category` is
 * optional because records loaded from the data file are not backfilled
 * with one; every other field is present once the document is loaded.
 */
module Records {
  import opened Wrappers
  import opened PyList

  const NotStarted: string := "Not Started"
  const InProgress: string := "In Progress"
  const Completed: string := "Completed"

  /** The recurrence value meaning "does not recur". */
  const NoRecurrence: string := "None"

  /** The pin emoji a project is created with on the project screen. */
  const PinEmoji: string := "\U{1F4CC}"

  /** The scalar fields of a project at one moment, as kept in its history. */
  datatype Snapshot = Snapshot(
    name: string,
    category: Option<string>,
    status: string,
    emoji: string,
    dueDate: string,
    recurrence: string)

  /** One edit: when it happened, and the fields before and after it. */
  datatype HistoryEntry = HistoryEntry(timestamp: string, before: Snapshot, after: Snapshot)

  datatype Project = Project(
    name: string,
    category: Option<string>,
    status: string,
    emoji: string,
    dueDate: string,
    recurrence: string,
    history: seq<HistoryEntry>)

  function SnapshotOf(p: Project): Snapshot {
    Snapshot(p.name, p.category, p.status, p.emoji, p.dueDate, p.recurrence)
  }

  /** The settings record; a field is `None` when its key is absent. */
  datatype Settings = Settings(theme: Option<string>, notifications: Option<bool>, fontScale: Option<string>)

  const DefaultSettings: Settings := Settings(Some("System Default"), Some(true), Some("Medium"))

  /** The whole document; `projects` is `None` when the key is absent. */
  datatype AppData = AppData(projects: Option<seq<Project>>, settings: Settings)

  /** `app_data.get("projects", [])`. */
  function ProjectsOf(data: AppData): seq<Project> {
    data.projects.GetOr([])
  }

  predicate IsCompleted(p: Project) {
    p.status == Completed
  }

  /** `len([p for p in projects if p.get("status") == "Completed"])`, shared by the home and statistics screens. */
  function CompletedCount(ps: seq<Project>): (n: nat)
    ensures n <= |ps|
  {
    Count(ps, IsCompleted)
  }
}
