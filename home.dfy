/** The home screen's progress line: completed out of total. */
module Home {
  import opened PyText
  import opened Records
  import opened ProjectList
  import opened MainApp

  const NoProjectsText: string := "No projects yet! \U{1F4CB}"

  function HomeSummary(ps: seq<Project>): string {
    if |ps| > 0 then NatToString(CompletedCount(ps)) + "/" + NatToString(|ps|) + " projects completed \U{1F4C8}"
    else NoProjectsText
  }

  /** The no-projects text appears exactly when the list is empty. */
  lemma HomeEmptyIff(ps: seq<Project>)
    ensures HomeSummary(ps) == NoProjectsText <==> ps == []
  {
    var s := HomeSummary(ps);
    if ps != [] {
      assert s[|s| - 1] == '\U{1F4C8}';
    }
  }

  /**
   * The completed figure is the number of projects the project screen shows
   * under its `"Completed"` filter with no search and any recurrence.
   */
  lemma {:induction false} CompletedMatchesFilter(ps: seq<Project>, sortBy: string)
    ensures CompletedCount(ps) == |Filter(ps, ListView("", sortBy, "Completed", "All"))|
  {
    if ps != [] {
      CompletedMatchesFilter(ps[1..], sortBy);
    }
  }

  /** The home screen and the line it shows. */
  class HomeScreen {
    var progressSummary: string
    const app: MainApp

    constructor(app: MainApp)
      ensures this.app == app && progressSummary == ""
    {
      this.app := app;
      progressSummary := "";
    }

    /** `on_pre_enter`: reads the project list and sets only the progress line. */
    method OnPreEnter()
      modifies this`progressSummary
      ensures progressSummary == HomeSummary(ProjectsOf(app.appData))
    {
      var projects := ProjectsOf(app.appData);
      var total := |projects|;
      var completed := CompletedCount(projects);
      if total > 0 {
        progressSummary := NatToString(completed) + "/" + NatToString(total) + " projects completed \U{1F4C8}";
      } else {
        progressSummary := NoProjectsText;
      }
    }
  }
}
