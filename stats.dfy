/**
 * The statistics screen: on entry it counts the projects, the completed
 * ones, the ones due from a week ago onwards, and the completed recurring
 * projects per name and recurrence, and renders them as one text.
 */
module Stats {
  import opened Wrappers
  import opened PyText
  import opened PyList
  import opened Dates
  import opened Records
  import opened MainApp

  // The recent count

  /** A due date the comprehension has to parse and cannot, which aborts the whole computation. */
  predicate BadDate(p: Project) {
    p.dueDate != "" && Strptime(p.dueDate).None?
  }

  predicate HasBadDate(ps: seq<Project>) {
    exists p | p in ps :: BadDate(p)
  }

  /** Due on or after the day numbered `since`; there is no upper bound. */
  function DueSince(since: int): Project -> bool {
    (p: Project) => p.dueDate != "" && Strptime(p.dueDate).Some? && DayNumber(Strptime(p.dueDate).value) >= since
  }

  /** The comprehension, element by element; `None` once a due date fails to parse. */
  function RecentFrom(ps: seq<Project>, since: int): Option<nat> {
    if ps == [] then Some(0)
    else
      var rest := RecentFrom(ps[1..], since);
      if ps[0].dueDate == "" then rest
      else
        match Strptime(ps[0].dueDate)
        case None => None
        case Some(due) =>
          match rest
          case None => None
          case Some(n) => Some((if DayNumber(due) >= since then 1 else 0) + n)
  }

  /** `today - timedelta(days=7)` as a day number; `None` where that would fall before 1 January of year 1. */
  function LastWeek(today: Date): Option<int>
    requires ValidDate(today)
  {
    if DayNumber(today) > 7 then Some(DayNumber(today) - 7) else None
  }

  function RecentCount(ps: seq<Project>, today: Date): Option<nat>
    requires ValidDate(today)
  {
    match LastWeek(today)
    case None => None
    case Some(since) => RecentFrom(ps, since)
  }

  /**
   * The recent count fails exactly when some non-empty due date does not
   * parse; otherwise it is the number of projects due from `since` onwards,
   * so at most the total.
   */
  lemma {:induction false} RecentFromCounts(ps: seq<Project>, since: int)
    ensures RecentFrom(ps, since).None? <==> HasBadDate(ps)
    ensures RecentFrom(ps, since).Some? ==>
      RecentFrom(ps, since).value == Count(ps, DueSince(since)) <= |ps|
  {
    if ps != [] {
      RecentFromCounts(ps[1..], since);
      assert ps == [ps[0]] + ps[1..];
      assert ps[0] in ps;
      if HasBadDate(ps[1..]) {
        var q :| q in ps[1..] && BadDate(q);
        assert q in ps;
      }
      if HasBadDate(ps) && !BadDate(ps[0]) {
        var q :| q in ps && BadDate(q);
        var k :| 0 <= k < |ps| && ps[k] == q;
        assert k != 0;
        assert ps[1..][k - 1] == q;
      }
    }
  }

  /** A project due today or later counts as recent. */
  lemma FutureCounted(p: Project, today: Date)
    requires ValidDate(today) && LastWeek(today).Some?
    requires p.dueDate != "" && Strptime(p.dueDate).Some? && !Before(Strptime(p.dueDate).value, today)
    ensures DueSince(LastWeek(today).value)(p)
  {
    DayNumberOrder(Strptime(p.dueDate).value, today);
  }

  // Streaks

  datatype StreakKey = StreakKey(name: string, recurrence: string)

  /** Completed and recurring. */
  predicate Qualifies(p: Project) {
    p.recurrence != NoRecurrence && p.status == Completed
  }

  function KeyOf(p: Project): StreakKey {
    StreakKey(p.name, p.recurrence)
  }

  function MatchesKey(k: StreakKey): Project -> bool {
    (p: Project) => Qualifies(p) && KeyOf(p) == k
  }

  /** `streaks[k]`: how many qualifying projects have that name and recurrence. */
  function StreakCount(ps: seq<Project>, k: StreakKey): nat {
    Count(ps, MatchesKey(k))
  }

  /** The keys of `streaks` in insertion order: each qualifying key where it first occurs. */
  function StreakKeys(ps: seq<Project>): seq<StreakKey>
    decreases |ps|
  {
    if ps == [] then []
    else
      var ks := StreakKeys(ps[..|ps| - 1]);
      var p := ps[|ps| - 1];
      if Qualifies(p) && KeyOf(p) !in ks then ks + [KeyOf(p)] else ks
  }

  /** The `streaks` dictionary. */
  function StreakMap(ps: seq<Project>): map<StreakKey, nat> {
    map k | k in StreakKeys(ps) :: StreakCount(ps, k)
  }

  lemma CountSnoc(ps: seq<Project>, p: Project, P: Project -> bool)
    ensures Count(ps + [p], P) == Count(ps, P) + (if P(p) then 1 else 0)
  {
    CountAppend(ps, [p], P);
  }

  /** A key is in the dictionary exactly when some qualifying project has it; no key comes twice. */
  lemma {:induction false} StreakKeysMembers(ps: seq<Project>)
    ensures forall k :: k in StreakKeys(ps) <==> StreakCount(ps, k) > 0
    ensures forall i, j :: 0 <= i < j < |StreakKeys(ps)| ==> StreakKeys(ps)[i] != StreakKeys(ps)[j]
    decreases |ps|
  {
    if ps != [] {
      var front := ps[..|ps| - 1];
      var p := ps[|ps| - 1];
      StreakKeysMembers(front);
      assert ps == front + [p];
      forall k ensures StreakCount(ps, k) == StreakCount(front, k) + (if MatchesKey(k)(p) then 1 else 0) {
        CountSnoc(front, p, MatchesKey(k));
      }
    }
  }

  function SumCounts(ps: seq<Project>, ks: seq<StreakKey>): nat {
    if ks == [] then 0 else StreakCount(ps, ks[0]) + SumCounts(ps, ks[1..])
  }

  lemma {:induction false} SumCountsSnocKey(ps: seq<Project>, ks: seq<StreakKey>, k: StreakKey)
    ensures SumCounts(ps, ks + [k]) == SumCounts(ps, ks) + StreakCount(ps, k)
  {
    if ks != [] {
      assert (ks + [k])[1..] == ks[1..] + [k];
      SumCountsSnocKey(ps, ks[1..], k);
    }
  }

  lemma {:induction false} SumCountsSnocProject(ps: seq<Project>, p: Project, ks: seq<StreakKey>)
    requires forall i, j :: 0 <= i < j < |ks| ==> ks[i] != ks[j]
    ensures SumCounts(ps + [p], ks) == SumCounts(ps, ks) + (if Qualifies(p) && KeyOf(p) in ks then 1 else 0)
  {
    if ks != [] {
      SumCountsSnocProject(ps, p, ks[1..]);
      CountSnoc(ps, p, MatchesKey(ks[0]));
      if KeyOf(p) == ks[0] {
        assert KeyOf(p) !in ks[1..];
      }
    }
  }

  /** The streak counts add up to the number of completed recurring projects. */
  lemma {:induction false} StreakTotal(ps: seq<Project>)
    ensures SumCounts(ps, StreakKeys(ps)) == Count(ps, Qualifies)
    decreases |ps|
  {
    if ps != [] {
      var front := ps[..|ps| - 1];
      var p := ps[|ps| - 1];
      var ks := StreakKeys(front);
      StreakTotal(front);
      StreakKeysMembers(front);
      assert ps == front + [p];
      CountSnoc(front, p, Qualifies);
      SumCountsSnocProject(front, p, ks);
      if Qualifies(p) && KeyOf(p) !in ks {
        SumCountsSnocKey(ps, ks, KeyOf(p));
        CountSnoc(front, p, MatchesKey(KeyOf(p)));
      }
    }
  }

  /** So they add up to at most the completed count. */
  lemma StreaksWithinCompleted(ps: seq<Project>)
    ensures SumCounts(ps, StreakKeys(ps)) <= CompletedCount(ps)
  {
    StreakTotal(ps);
    CountMonotone(ps, Qualifies, IsCompleted);
  }

  /** What one more project does to the keys and the counts. */
  lemma StreakStep(front: seq<Project>, p: Project)
    ensures StreakKeys(front + [p]) ==
      if Qualifies(p) && KeyOf(p) !in StreakKeys(front) then StreakKeys(front) + [KeyOf(p)] else StreakKeys(front)
    ensures forall k :: StreakCount(front + [p], k) == StreakCount(front, k) + (if Qualifies(p) && k == KeyOf(p) then 1 else 0)
  {
    var ps := front + [p];
    assert ps[..|ps| - 1] == front;
    forall k ensures StreakCount(ps, k) == StreakCount(front, k) + (if Qualifies(p) && k == KeyOf(p) then 1 else 0) {
      CountSnoc(front, p, MatchesKey(k));
    }
  }

  /** The `for` loop that builds `streaks`. */
  method ComputeStreaks(ps: seq<Project>) returns (keys: seq<StreakKey>, counts: map<StreakKey, nat>)
    ensures keys == StreakKeys(ps)
    ensures counts == StreakMap(ps)
  {
    keys := [];
    counts := map[];
    var i := 0;
    while i < |ps|
      invariant 0 <= i <= |ps|
      invariant keys == StreakKeys(ps[..i])
      invariant forall k :: k in counts <==> k in keys
      invariant forall k | k in counts :: counts[k] == StreakCount(ps[..i], k)
    {
      var p := ps[i];
      assert ps[..i + 1] == ps[..i] + [p];
      StreakKeysMembers(ps[..i]);
      StreakStep(ps[..i], p);
      if Qualifies(p) {
        var key := KeyOf(p);
        if key !in counts {
          keys := keys + [key];
        }
        counts := counts[key := (if key in counts then counts[key] else 0) + 1];
      }
      i := i + 1;
    }
    assert ps[..i] == ps;
  }

  // The text

  const NoStreaksText: string := "No streaks yet \U{1F4C9}"
  const StatsErrorText: string := "Error loading stats \U{1F622}"

  function StreakLine(k: StreakKey, n: nat): string {
    k.name + " \U{1F4C8} " + NatToString(n) + " " + k.recurrence + " streak"
  }

  /** `"\n".join(lines)`. */
  function JoinLines(lines: seq<string>): string {
    if lines == [] then ""
    else if |lines| == 1 then lines[0]
    else lines[0] + "\n" + JoinLines(lines[1..])
  }

  function StreakLines(keys: seq<StreakKey>, counts: map<StreakKey, nat>): seq<string>
    requires forall k | k in keys :: k in counts
  {
    if keys == [] then [] else [StreakLine(keys[0], counts[keys[0]])] + StreakLines(keys[1..], counts)
  }

  /** The joined lines, or the no-streaks text when the join is empty. */
  function StreakText(keys: seq<StreakKey>, counts: map<StreakKey, nat>): string
    requires forall k | k in keys :: k in counts
  {
    var joined := JoinLines(StreakLines(keys, counts));
    if joined == "" then NoStreaksText else joined
  }

  /** The no-streaks text appears exactly when there is no streak. */
  lemma StreakTextEmptyIff(keys: seq<StreakKey>, counts: map<StreakKey, nat>)
    requires forall k | k in keys :: k in counts
    ensures StreakText(keys, counts) == NoStreaksText <==> keys == []
  {
    if keys != [] {
      var lines := StreakLines(keys, counts);
      var first := lines[0];
      var n := |keys[0].name|;
      assert first[n + 1] == '\U{1F4C8}';
      var joined := JoinLines(lines);
      assert joined[..|first|] == first;
      assert joined[n + 1] == '\U{1F4C8}';
      assert '\U{1F4C8}' !in NoStreaksText;
    }
  }

  function StatsText(total: nat, completed: nat, recent: nat, streakText: string): string {
    "Total Projects: " + NatToString(total) + " \U{1F4CB}\n"
    + "Completed: " + NatToString(completed) + " \U{2705}\n"
    + "Projects Due Last Week: " + NatToString(recent) + " \U{1F4C5}\n"
    + "Streaks:\n" + streakText
  }

  /** What `on_enter` shows: the summary, or the error text when the computation raises. */
  function StatsSummary(ps: seq<Project>, today: Date): string
    requires ValidDate(today)
  {
    match RecentCount(ps, today)
    case None => StatsErrorText
    case Some(recent) =>
      StatsText(|ps|, CompletedCount(ps), recent, StreakText(StreakKeys(ps), StreakMap(ps)))
  }

  /**
   * The summary is the error text exactly when a week before today is out
   * of range or some non-empty due date does not parse.
   */
  lemma StatsErrorIff(ps: seq<Project>, today: Date)
    requires ValidDate(today)
    ensures StatsSummary(ps, today) == StatsErrorText <==> LastWeek(today).None? || HasBadDate(ps)
  {
    if LastWeek(today).Some? {
      RecentFromCounts(ps, LastWeek(today).value);
      if !HasBadDate(ps) {
        assert StatsSummary(ps, today)[0] == 'T';
      }
    }
  }

  /**
   * When the summary is shown, its figures are the total, the completed
   * count (at most the total), the recent count (at most the total) and
   * streak counts adding up to at most the completed count.
   */
  lemma StatsFigures(ps: seq<Project>, today: Date)
    requires ValidDate(today) && RecentCount(ps, today).Some?
    ensures CompletedCount(ps) <= |ps|
    ensures RecentCount(ps, today).value == Count(ps, DueSince(LastWeek(today).value)) <= |ps|
    ensures SumCounts(ps, StreakKeys(ps)) <= CompletedCount(ps)
    ensures StatsSummary(ps, today) ==
      StatsText(|ps|, CompletedCount(ps), RecentCount(ps, today).value, StreakText(StreakKeys(ps), StreakMap(ps)))
  {
    RecentFromCounts(ps, LastWeek(today).value);
    StreaksWithinCompleted(ps);
  }

  /** The statistics screen and the text it shows. */
  class StatsScreen {
    var statsSummary: string
    const app: MainApp

    constructor(app: MainApp)
      ensures this.app == app && statsSummary == ""
    {
      this.app := app;
      statsSummary := "";
    }

    /** `on_enter`, with today's date passed in. */
    method OnEnter(today: Date)
      requires ValidDate(today)
      modifies this`statsSummary
      ensures statsSummary == StatsSummary(ProjectsOf(app.appData), today)
    {
      var projects := ProjectsOf(app.appData);
      var total := |projects|;
      var completed := CompletedCount(projects);
      var recent := RecentCount(projects, today);
      if recent.None? {
        statsSummary := StatsErrorText;
        return;
      }
      var keys, counts := ComputeStreaks(projects);
      var streakText := StreakText(keys, counts);
      statsSummary := StatsText(total, completed, recent.value, streakText);
    }
  }
}
