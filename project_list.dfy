/**
 * The project list query of the project screen (`update_project_list`): a
 * comprehension that keeps the projects passing the status, recurrence and
 * search filters in their stored order, followed by Python's stable
 * `list.sort` on a key chosen by `sort_by`.
 */
module ProjectList {
  import opened Wrappers
  import opened PyText
  import opened PyList
  import opened Records
  import opened Dates

  /** The screen properties that select and order the list. */
  datatype ListView = ListView(searchText: string, sortBy: string, filterStatus: string, filterRecurrence: string)

  /** `"All"` passes everything, `"Active"` the two unfinished statuses, `"Completed"` only itself; any other filter nothing. */
  predicate StatusPasses(filter: string, status: string) {
    filter == "All" ||
    (filter == "Active" && (status == NotStarted || status == InProgress)) ||
    (filter == "Completed" && status == Completed)
  }

  predicate RecurrencePasses(filter: string, recurrence: string) {
    filter == "All" || recurrence == filter
  }

  /** An empty search passes everything; otherwise the search text must occur in the lower-cased name. */
  predicate SearchPasses(search: string, name: string) {
    search == "" || Contains(search, Lower(name))
  }

  predicate Shown(view: ListView, p: Project) {
    StatusPasses(view.filterStatus, p.status) &&
    RecurrencePasses(view.filterRecurrence, p.recurrence) &&
    SearchPasses(view.searchText, p.name)
  }

  /** The filtering comprehension: the shown projects, each as often as stored, in stored order. */
  function Filter(ps: seq<Project>, view: ListView): (r: seq<Project>)
  {
    if ps == [] then []
    else if Shown(view, ps[0]) then [ps[0]] + Filter(ps[1..], view)
    else Filter(ps[1..], view)
  }

  /** The filtered list keeps the shown projects, each as often as stored, in stored order. */
  lemma {:induction false} FilterKeepsShown(ps: seq<Project>, view: ListView)
    ensures IsSubsequence(Filter(ps, view), ps)
    ensures forall p :: multiset(Filter(ps, view))[p] == if Shown(view, p) then multiset(ps)[p] else 0
  {
    if ps != [] {
      FilterKeepsShown(ps[1..], view);
      assert ps == [ps[0]] + ps[1..];
      if Shown(view, ps[0]) {
        assert ([ps[0]] + Filter(ps[1..], view))[1..] == Filter(ps[1..], view);
      }
    }
  }

  /** With every filter off the list is shown as stored. */
  lemma {:induction false} FilterNothing(ps: seq<Project>, view: ListView)
    requires view.filterStatus == "All" && view.filterRecurrence == "All" && view.searchText == ""
    ensures Filter(ps, view) == ps
  {
    if ps != [] {
      FilterNothing(ps[1..], view);
      assert ps == [ps[0]] + ps[1..];
    }
  }

  /** A status filter other than `"All"`, `"Active"` and `"Completed"` shows nothing. */
  lemma {:induction false} FilterUnknownStatus(ps: seq<Project>, view: ListView)
    requires view.filterStatus != "All" && view.filterStatus != "Active" && view.filterStatus != "Completed"
    ensures Filter(ps, view) == []
  {
    if ps != [] {
      FilterUnknownStatus(ps[1..], view);
    }
  }

  /** Filtering the filtered list again changes nothing. */
  lemma {:induction false} FilterIdempotent(ps: seq<Project>, view: ListView)
    ensures Filter(Filter(ps, view), view) == Filter(ps, view)
  {
    if ps != [] {
      FilterIdempotent(ps[1..], view);
    }
  }

  /**
   * When every status is one of the three the screen offers, the `"Active"`
   * and `"Completed"` views split the `"All"` view between them.
   */
  lemma {:induction false} ActiveAndCompletedSplitAll(ps: seq<Project>, view: ListView)
    requires view.filterStatus == "All"
    requires forall p | p in ps :: p.status == NotStarted || p.status == InProgress || p.status == Completed
    ensures |Filter(ps, view)| ==
            |Filter(ps, view.(filterStatus := "Active"))| + |Filter(ps, view.(filterStatus := "Completed"))|
  {
    if ps != [] {
      ActiveAndCompletedSplitAll(ps[1..], view);
      FilterLength(ps, view);
      FilterLength(ps, view.(filterStatus := "Active"));
      FilterLength(ps, view.(filterStatus := "Completed"));
    }
  }

  lemma FilterLength(ps: seq<Project>, view: ListView)
    requires ps != []
    ensures |Filter(ps, view)| == (if Shown(view, ps[0]) then 1 else 0) + |Filter(ps[1..], view)|
  {
  }

  // Sorting

  /** A sort key: a text (`"Name"`, `"Date"`) or a status rank (`"Status"`). */
  datatype SortKey = Text(text: string) | Rank(rank: nat)

  /** Key order; within one sort every key has the same kind. */
  predicate KeyLe(a: SortKey, b: SortKey) {
    match a
    case Text(x) => b.Text? ==> StrLe(x, b.text)
    case Rank(x) => b.Rank? && x <= b.rank
  }

  lemma KeyLeReflexive(a: SortKey)
    ensures KeyLe(a, a)
  {
    if a.Text? {
      StrLeReflexive(a.text);
    }
  }

  lemma KeyLeTotal(a: SortKey, b: SortKey)
    ensures KeyLe(a, b) || KeyLe(b, a)
  {
    if a.Text? && b.Text? {
      StrLeTotal(a.text, b.text);
    }
  }

  lemma KeyLeTransitive(a: SortKey, b: SortKey, c: SortKey)
    requires KeyLe(a, b) && KeyLe(b, c)
    ensures KeyLe(a, c)
  {
    if a.Text? && b.Text? && c.Text? {
      StrLeTransitive(a.text, b.text, c.text);
    }
  }

  lemma KeyLeAntisymmetric(a: SortKey, b: SortKey)
    requires KeyLe(a, b) && KeyLe(b, a)
    ensures a == b
  {
    if a.Text? && b.Text? {
      StrLeAntisymmetric(a.text, b.text);
    }
  }

  /** `["Not Started", "In Progress", "Completed"].index(status)`, `None` for the `ValueError`. */
  function StatusRank(status: string): Option<nat> {
    if status == NotStarted then Some(0)
    else if status == InProgress then Some(1)
    else if status == Completed then Some(2)
    else None
  }

  /** The `sort_by` values that sort; any other keeps the filtered order. */
  predicate IsSortField(field: string) {
    field == "Name" || field == "Date" || field == "Status"
  }

  /** Whether the key of `p` can be computed (only a status rank can fail). */
  predicate HasKey(field: string, p: Project) {
    field != "Status" || StatusRank(p.status).Some?
  }

  predicate AllHaveKeys(field: string, s: seq<Project>) {
    forall p | p in s :: HasKey(field, p)
  }

  /**
   * The sort key: the lower-cased name, the raw due-date text (every project
   * has one, so the `"9999-12-31"` default for a missing key never applies),
   * or the status rank. An unknown status gets rank 3 here, but `Query` never
   * sorts a list holding one, because the source raises there.
   */
  function Key(field: string, p: Project): SortKey {
    if field == "Name" then Text(Lower(p.name))
    else if field == "Date" then Text(p.dueDate)
    else Rank(StatusRank(p.status).GetOr(3))
  }

  ghost predicate SortedBy(field: string, s: seq<Project>) {
    forall i, j :: 0 <= i < j < |s| ==> KeyLe(Key(field, s[i]), Key(field, s[j]))
  }

  /** The projects of `s` whose key is `k`, in their order in `s`. */
  function KeyRun(field: string, s: seq<Project>, k: SortKey): seq<Project> {
    if s == [] then [] else (if Key(field, s[0]) == k then [s[0]] else []) + KeyRun(field, s[1..], k)
  }

  /** Places `x` in front of the first element whose key is not smaller than its own. */
  function Insert(field: string, x: Project, t: seq<Project>): seq<Project> {
    if t == [] then [x]
    else if KeyLe(Key(field, x), Key(field, t[0])) then [x] + t
    else [t[0]] + Insert(field, x, t[1..])
  }

  lemma {:induction false} InsertPermutes(field: string, x: Project, t: seq<Project>)
    ensures multiset(Insert(field, x, t)) == multiset(t) + multiset{x}
  {
    if t != [] && !KeyLe(Key(field, x), Key(field, t[0])) {
      InsertPermutes(field, x, t[1..]);
      assert t == [t[0]] + t[1..];
    }
  }

  /** Python's stable `list.sort(key=...)`, as an insertion sort from the back. */
  function StableSort(field: string, s: seq<Project>): seq<Project> {
    if s == [] then [] else Insert(field, s[0], StableSort(field, s[1..]))
  }

  /** The sorted list holds the same projects, each as often. */
  lemma {:induction false} StableSortPermutes(field: string, s: seq<Project>)
    ensures multiset(StableSort(field, s)) == multiset(s)
  {
    if s != [] {
      var rest := StableSort(field, s[1..]);
      assert StableSort(field, s) == Insert(field, s[0], rest);
      StableSortPermutes(field, s[1..]);
      InsertPermutes(field, s[0], rest);
      assert s == [s[0]] + s[1..];
      assert multiset(s) == multiset(s[1..]) + multiset{s[0]};
    }
  }

  lemma {:induction false} InsertSorted(field: string, x: Project, t: seq<Project>)
    requires SortedBy(field, t)
    ensures SortedBy(field, Insert(field, x, t))
  {
    if t != [] {
      var kx := Key(field, x);
      if KeyLe(kx, Key(field, t[0])) {
        forall j | 0 <= j < |t| ensures KeyLe(kx, Key(field, t[j])) {
          if j > 0 {
            KeyLeTransitive(kx, Key(field, t[0]), Key(field, t[j]));
          }
        }
      } else {
        KeyLeTotal(kx, Key(field, t[0]));
        InsertSorted(field, x, t[1..]);
        var rest := Insert(field, x, t[1..]);
        forall j | 0 <= j < |rest| ensures KeyLe(Key(field, t[0]), Key(field, rest[j])) {
          InsertPermutes(field, x, t[1..]);
          assert rest[j] in multiset(rest);
          if rest[j] != x {
            var m :| 0 <= m < |t[1..]| && t[1..][m] == rest[j];
            assert t[m + 1] == rest[j];
          }
        }
      }
    }
  }

  lemma {:induction false} InsertKeyRun(field: string, x: Project, t: seq<Project>, k: SortKey)
    ensures KeyRun(field, Insert(field, x, t), k) == (if Key(field, x) == k then [x] else []) + KeyRun(field, t, k)
  {
    if t == [] {
      KeyRunCons(field, x, [], k);
    } else if KeyLe(Key(field, x), Key(field, t[0])) {
      KeyRunCons(field, x, t, k);
    } else {
      InsertKeyRun(field, x, t[1..], k);
      KeyRunSwap(field, x, t, k);
    }
  }

  /** The step of `InsertKeyRun` where `x` goes behind the first element. */
  lemma KeyRunSwap(field: string, x: Project, t: seq<Project>, k: SortKey)
    requires t != [] && !KeyLe(Key(field, x), Key(field, t[0]))
    requires KeyRun(field, Insert(field, x, t[1..]), k) == (if Key(field, x) == k then [x] else []) + KeyRun(field, t[1..], k)
    ensures KeyRun(field, Insert(field, x, t), k) == (if Key(field, x) == k then [x] else []) + KeyRun(field, t, k)
  {
    var rest := Insert(field, x, t[1..]);
    var ex := if Key(field, x) == k then [x] else [];
    var e0 := if Key(field, t[0]) == k then [t[0]] else [];
    var r1 := KeyRun(field, t[1..], k);
    assert Insert(field, x, t) == [t[0]] + rest;
    KeyRunCons(field, t[0], rest, k);
    KeyRunCons(field, t[0], t[1..], k);
    assert [t[0]] + t[1..] == t;
    assert e0 == [] || ex == [] by {
      if Key(field, x) == k {
        KeyLeReflexive(k);
      }
    }
    SwapEmpty(e0, ex, r1);
  }

  lemma SwapEmpty<T>(a: seq<T>, b: seq<T>, r: seq<T>)
    requires a == [] || b == []
    ensures a + (b + r) == b + (a + r)
  {
    if a == [] {
      assert a + (b + r) == b + r && a + r == r;
    } else {
      assert b + (a + r) == a + r && b + r == r;
    }
  }

  lemma KeyRunCons(field: string, x: Project, s: seq<Project>, k: SortKey)
    ensures KeyRun(field, [x] + s, k) == (if Key(field, x) == k then [x] else []) + KeyRun(field, s, k)
  {
    assert ([x] + s)[1..] == s;
  }

  /** The sorted list is in key order. */
  lemma {:induction false} StableSortSorted(field: string, s: seq<Project>)
    ensures SortedBy(field, StableSort(field, s))
  {
    if s != [] {
      StableSortSorted(field, s[1..]);
      InsertSorted(field, s[0], StableSort(field, s[1..]));
    }
  }

  /** The sort is stable: projects with equal keys keep their relative order. */
  lemma {:induction false} StableSortStable(field: string, s: seq<Project>, k: SortKey)
    ensures KeyRun(field, StableSort(field, s), k) == KeyRun(field, s, k)
  {
    if s != [] {
      StableSortStable(field, s[1..], k);
      InsertKeyRun(field, s[0], StableSort(field, s[1..]), k);
    }
  }

  /**
   * The list the screen shows, or `None` when computing a status rank raises
   * (the exception is caught and the list is left empty).
   */
  function Query(ps: seq<Project>, view: ListView): (r: Option<seq<Project>>)
    ensures r.None? <==> view.sortBy == "Status" && !AllHaveKeys("Status", Filter(ps, view))
  {
    var shown := Filter(ps, view);
    if !IsSortField(view.sortBy) then Some(shown)
    else if AllHaveKeys(view.sortBy, shown) then Some(StableSort(view.sortBy, shown))
    else None
  }

  /**
   * What the shown list is: exactly the shown projects, as often as stored;
   * unsorted it is the filtered list itself; sorted it is in key order and
   * projects with equal keys keep their stored relative order.
   */
  lemma QueryResult(ps: seq<Project>, view: ListView, k: SortKey)
    requires Query(ps, view).Some?
    ensures forall p :: multiset(Query(ps, view).value)[p] == if Shown(view, p) then multiset(ps)[p] else 0
    ensures !IsSortField(view.sortBy) ==> Query(ps, view).value == Filter(ps, view)
    ensures IsSortField(view.sortBy) ==>
      && SortedBy(view.sortBy, Query(ps, view).value)
      && KeyRun(view.sortBy, Query(ps, view).value, k) == KeyRun(view.sortBy, Filter(ps, view), k)
  {
    FilterKeepsShown(ps, view);
    if IsSortField(view.sortBy) {
      StableSortPermutes(view.sortBy, Filter(ps, view));
      StableSortSorted(view.sortBy, Filter(ps, view));
      StableSortStable(view.sortBy, Filter(ps, view), k);
    }
  }

  /** Sorting by `"Date"` puts every project without a due date before all that have one. */
  lemma EmptyDueDatesFirst(s: seq<Project>, i: int, j: int)
    requires SortedBy("Date", s)
    requires 0 <= i < j < |s| && s[j].dueDate == ""
    ensures s[i].dueDate == ""
  {
    assert KeyLe(Key("Date", s[i]), Key("Date", s[j]));
  }

  /** Sorting by `"Status"` puts Not Started before In Progress before Completed. */
  lemma StatusSortOrder(s: seq<Project>, i: int, j: int)
    requires AllHaveKeys("Status", s) && SortedBy("Status", s)
    requires 0 <= i < j < |s|
    ensures s[i].status == Completed ==> s[j].status == Completed
    ensures s[j].status == NotStarted ==> s[i].status == NotStarted
  {
    assert KeyLe(Key("Status", s[i]), Key("Status", s[j]));
    assert s[i] in s && s[j] in s;
  }

  /**
   * Sorting by `"Date"` compares the stored text, and for due dates that
   * passed the screen's test and are written in ASCII digits that is
   * chronological order.
   */
  lemma DateSortChronological(s: seq<Project>, i: int, j: int)
    requires SortedBy("Date", s)
    requires 0 <= i < j < |s| && IsValidDueDate(s[i].dueDate) && IsValidDueDate(s[j].dueDate)
    requires AsciiOnlyDigits(s[i].dueDate) && AsciiOnlyDigits(s[j].dueDate)
    ensures !Before(Strptime(s[j].dueDate).value, Strptime(s[i].dueDate).value)
  {
    assert KeyLe(Key("Date", s[i]), Key("Date", s[j]));
    ValidDueDateOrder(s[i].dueDate, s[j].dueDate);
  }

  /**
   * A due date with an Arabic-Indic year passes the screen's test but sorts
   * after every later date written in ASCII digits: the two-element list
   * below is in `"Date"` order, and only in that order, yet its second date
   * is the earlier one.
   */
  lemma DateSortOutOfOrder(p: Project, q: Project, y: string)
    requires |y| == 4 && AllDigits(y) && 2024 < DigitsValue(y)
    requires p.dueDate == y + "-01-15" && q.dueDate == ArabicIndic2024 + "-01-15"
    ensures IsValidDueDate(p.dueDate) && IsValidDueDate(q.dueDate)
    ensures SortedBy("Date", [p, q]) && !SortedBy("Date", [q, p])
    ensures Before(Strptime(q.dueDate).value, Strptime(p.dueDate).value)
  {
    ArabicIndicYearAccepted();
    AsciiJanuaryFifteenth(y);
    ArabicIndicYearSortsLate(y);
    assert KeyLe(Key("Date", [q, p][0]), Key("Date", [q, p][1])) == StrLe(q.dueDate, p.dueDate);
  }
}
