/** The task board of `Home` (src/pages/Home.js): the task records, the three
    filters and the four columns, the status counters, and the changes the
    add, drop, delete and edit handlers make to the task list once the
    backend has answered. */
module Board {
  import opened Optional
  import opened Seqs
  import opened Text

  /** A task record as the backend returns it. Records coming from different
      code paths carry their identity in `_id` (here `docId`) or in `id`, so
      both are kept, each possibly absent. `status` and `priority` are plain
      strings: the board compares them as text and never checks them. */
  datatype Task = Task(
    docId: Option<string>,
    id: Option<string>,
    title: string,
    description: string,
    person: string,
    photo: string,
    status: string,
    priority: string)

  const All := "all"
  const Todo := "todo"
  const InProgress := "inprogress"
  const UnderReview := "underreview"
  const Done := "done"

  /** The columns of the board, in display order. */
  const Columns: seq<string> := [Todo, InProgress, UnderReview, Done]

  /** The picture every newly added task is given. */
  const DefaultPhoto := "https://cdn-icons-png.flaticon.com/512/149/149071.png"

  // ---------------------------------------------------------------------
  // Identity
  // ---------------------------------------------------------------------

  /** The handlers' identity test `t._id === k || t.id === k`. A key of
      `None` is JavaScript's `undefined`, which equals an absent field. */
  predicate Matches(t: Task, k: Option<string>) {
    t.docId == k || t.id == k
  }

  function MatchFn(k: Option<string>): Task -> bool {
    (t: Task) => Matches(t, k)
  }

  function MissFn(k: Option<string>): Task -> bool {
    (t: Task) => !Matches(t, k)
  }

  /** The key a card hands to its handlers, `task._id || task.id`: the `_id`
      unless it is absent or empty, and otherwise whatever `id` holds. */
  function CardKey(t: Task): (r: Option<string>)
    ensures Matches(t, r)
    ensures t.docId.Some? && t.docId.value != "" ==> r == t.docId
    ensures t.docId.None? || t.docId == Some("") ==> r == t.id
  {
    if t.docId.Some? && t.docId.value != "" then t.docId else t.id
  }

  /** `tasks.find(...)` by key, as an index: the first record answering to `k`. */
  function FirstMatch(tasks: seq<Task>, k: Option<string>): (r: Option<nat>)
    ensures r.None? <==> forall i :: 0 <= i < |tasks| ==> !Matches(tasks[i], k)
    ensures r.Some? ==> r.value < |tasks| && Matches(tasks[r.value], k)
    ensures r.Some? ==> forall j :: 0 <= j < r.value ==> !Matches(tasks[j], k)
  {
    if tasks == [] then None
    else if Matches(tasks[0], k) then Some(0)
    else
      match FirstMatch(tasks[1..], k)
      case None => None
      case Some(i) => Some(i + 1)
  }

  // ---------------------------------------------------------------------
  // Filters and columns
  // ---------------------------------------------------------------------

  /** The three filter controls: status and priority selections (`"all"`
      switches a filter off) and the free-text assignee box. */
  datatype Filters = Filters(status: string, priority: string, name: string)

  /** The predicate `filterTasks` applies to each record: exact status,
      case-insensitive priority, case-insensitive assignee substring. A name
      box holding only white space filters nothing, because only the
      emptiness test trims it; the substring test uses it untrimmed. */
  predicate Visible(f: Filters, t: Task) {
    && (f.status == All || t.status == f.status)
    && (f.priority == All || Lower(t.priority) == Lower(f.priority))
    && (Trim(f.name) == "" || Includes(Lower(t.person), Lower(f.name)))
  }

  function VisibleFn(f: Filters): Task -> bool {
    (t: Task) => Visible(f, t)
  }

  function StatusFn(s: string): Task -> bool {
    (t: Task) => t.status == s
  }

  /** `filterTasks`: the records passing all three filters, in board order. */
  function FilterTasks(tasks: seq<Task>, f: Filters): (r: seq<Task>)
    ensures IsSubsequence(r, tasks)
    ensures forall t :: t in r <==> t in tasks && Visible(f, t)
    ensures forall t :: multiset(r)[t] == if Visible(f, t) then multiset(tasks)[t] else 0
  {
    var r := Filter(tasks, VisibleFn(f));
    assert forall i :: 0 <= i < |tasks| && Visible(f, tasks[i]) ==> tasks[i] in r by {
      forall i | 0 <= i < |tasks| && Visible(f, tasks[i]) ensures tasks[i] in r {
        FilterKeepsEveryMatch(tasks, VisibleFn(f), i);
      }
    }
    r
  }

  /** One column of the board: the visible records with that column's status. */
  function Column(tasks: seq<Task>, f: Filters, col: string): (r: seq<Task>)
    ensures IsSubsequence(r, FilterTasks(tasks, f))
    ensures forall t :: t in r <==> t in tasks && Visible(f, t) && t.status == col
  {
    var v := FilterTasks(tasks, f);
    var r := Filter(v, StatusFn(col));
    assert forall i :: 0 <= i < |v| && v[i].status == col ==> v[i] in r by {
      forall i | 0 <= i < |v| && v[i].status == col ensures v[i] in r {
        FilterKeepsEveryMatch(v, StatusFn(col), i);
      }
    }
    r
  }

  /** `countTasks`: how many records have exactly the given status. */
  function CountTasks(tasks: seq<Task>, s: string): (r: nat)
    ensures r <= |tasks|
    ensures r == 0 <==> forall i :: 0 <= i < |tasks| ==> tasks[i].status != s
    ensures r == |tasks| <==> forall i :: 0 <= i < |tasks| ==> tasks[i].status == s
  {
    var sel := Filter(tasks, StatusFn(s));
    FilterAllPass(tasks, StatusFn(s));
    assert sel == [] ==> forall i :: 0 <= i < |tasks| ==> tasks[i].status != s by {
      forall i | 0 <= i < |tasks| && tasks[i].status == s ensures sel != [] {
        FilterKeepsEveryMatch(tasks, StatusFn(s), i);
      }
    }
    assert |sel| == |tasks| ==> sel == tasks by {
      if |sel| == |tasks| {
        SubsequenceOfEqualLength(sel, tasks);
      }
    }
    |sel|
  }

  /** A subsequence as long as the whole sequence is the whole sequence. */
  lemma {:induction false} SubsequenceOfEqualLength(sub: seq<Task>, s: seq<Task>)
    requires IsSubsequence(sub, s) && |sub| == |s|
    ensures sub == s
  {
    if s != [] {
      if sub[0] == s[0] && IsSubsequence(sub[1..], s[1..]) {
        SubsequenceOfEqualLength(sub[1..], s[1..]);
        assert sub == [sub[0]] + sub[1..];
        assert s == [s[0]] + s[1..];
      } else {
        SubsequenceNotLonger(sub, s[1..]);
      }
    }
  }

  /** A subsequence is never longer than the sequence it is drawn from. */
  lemma {:induction false} SubsequenceNotLonger(sub: seq<Task>, s: seq<Task>)
    requires IsSubsequence(sub, s)
    ensures |sub| <= |s|
  {
    if sub != [] {
      if sub[0] == s[0] && IsSubsequence(sub[1..], s[1..]) {
        SubsequenceNotLonger(sub[1..], s[1..]);
      } else {
        SubsequenceNotLonger(sub, s[1..]);
      }
    }
  }

  /** With every filter off (status and priority `"all"`, a name box that
      trims to nothing) the board shows the whole list, in order. */
  lemma FilterTasksAllOff(tasks: seq<Task>, f: Filters)
    requires f.status == All && f.priority == All && Trim(f.name) == ""
    ensures FilterTasks(tasks, f) == tasks
  {
    FilterAllPass(tasks, VisibleFn(f));
  }

  /** Filtering what is already filtered changes nothing. */
  lemma FilterTasksIdempotent(tasks: seq<Task>, f: Filters)
    ensures FilterTasks(FilterTasks(tasks, f), f) == FilterTasks(tasks, f)
  {
    FilterIdempotent(tasks, VisibleFn(f));
  }

  /** The priority filter compares without regard to ASCII case: any two
      selections with the same lower-case form show the same records. */
  lemma PriorityIgnoresCase(tasks: seq<Task>, f: Filters, p: string)
    requires f.priority != All && p != All && Lower(p) == Lower(f.priority)
    ensures FilterTasks(tasks, f.(priority := p)) == FilterTasks(tasks, f)
  {
    FilterCongruent(tasks, VisibleFn(f.(priority := p)), VisibleFn(f));
  }

  /** The assignee filter compares without regard to ASCII case: any two
      entries with the same lower-case form show the same records. */
  lemma NameIgnoresCase(tasks: seq<Task>, f: Filters, n: string)
    requires Lower(n) == Lower(f.name)
    ensures FilterTasks(tasks, f.(name := n)) == FilterTasks(tasks, f)
  {
    forall i | 0 <= i < |tasks|
      ensures Visible(f.(name := n), tasks[i]) == Visible(f, tasks[i])
    {
      LowerKeepsBlank(n);
      LowerKeepsBlank(f.name);
    }
    FilterCongruent(tasks, VisibleFn(f.(name := n)), VisibleFn(f));
  }

  /** ASCII lower-casing maps no letter to white space and no white space
      to a letter, so it keeps a string blank or non-blank. */
  lemma LowerKeepsBlank(s: string)
    ensures Trim(Lower(s)) == "" <==> Trim(s) == ""
  {
    assert forall k :: 0 <= k < |s| ==> (IsSpace(Lower(s)[k]) <==> IsSpace(s[k]));
  }

  /** The board's own examples: selecting `"high"` shows a `"High"` task,
      and typing `"ali"` shows a task assigned to `"Alice"`. */
  lemma CaseInsensitiveExamples(t: Task)
    requires t.priority == "High" && t.person == "Alice"
    ensures Visible(Filters(All, "high", ""), t)
    ensures Visible(Filters(All, All, "ali"), t)
  {
    assert Lower("High") == "high";
    assert Lower("Alice") == "alice";
    assert Lower("ali") == "ali";
    assert OccursAt("alice", "ali", 0);
    assert Trim("ali") != "" by {
      assert !AllSpace("ali") by { assert !IsSpace("ali"[0]); }
    }
  }

  /** Every visible record sits in the column named by its status, in no
      other column, and in none at all when its status names no column. */
  lemma ColumnsPartitionVisible(tasks: seq<Task>, f: Filters, t: Task)
    requires t in FilterTasks(tasks, f)
    ensures forall i :: 0 <= i < |Columns| ==> (t in Column(tasks, f, Columns[i]) <==> t.status == Columns[i])
    ensures t.status in Columns ==> exists i :: 0 <= i < |Columns| && t in Column(tasks, f, Columns[i])
    ensures t.status !in Columns ==> forall i :: 0 <= i < |Columns| ==> t !in Column(tasks, f, Columns[i])
  {
    if t.status in Columns {
      var i :| 0 <= i < |Columns| && Columns[i] == t.status;
      assert t in Column(tasks, f, Columns[i]);
    }
  }

  function ColumnFn(f: Filters, col: string): Task -> bool {
    (t: Task) => Visible(f, t) && t.status == col
  }

  /** The two stages of a column (the board filter, then the status test)
      select the same records, in the same order, as one combined filter. */
  lemma ColumnIsOneFilter(tasks: seq<Task>, f: Filters, col: string)
    ensures Column(tasks, f, col) == Filter(tasks, ColumnFn(f, col))
  {
    FilterThenFilter(tasks, VisibleFn(f), StatusFn(col), ColumnFn(f, col));
  }

  function OnBoardFn(): Task -> bool {
    (t: Task) => t.status in Columns
  }

  /** The summed length of the four column filters of `v`. */
  function ColumnTotal(v: seq<Task>): nat {
    |Filter(v, StatusFn(Todo))| + |Filter(v, StatusFn(InProgress))|
    + |Filter(v, StatusFn(UnderReview))| + |Filter(v, StatusFn(Done))|
  }

  /** A status names a column exactly when it is one of the four. */
  lemma InColumnsIff(st: string)
    ensures st in Columns <==> st == Todo || st == InProgress || st == UnderReview || st == Done
  {
  }

  /** Dropping the head of `v` lowers the column total by one exactly when
      the head has a column status. */
  lemma ColumnTotalCons(v: seq<Task>)
    requires v != []
    ensures ColumnTotal(v) == ColumnTotal(v[1..])
      + (if v[0].status == Todo || v[0].status == InProgress
            || v[0].status == UnderReview || v[0].status == Done then 1 else 0)
  {
    FilterCons(v, StatusFn(Todo));
    FilterCons(v, StatusFn(InProgress));
    FilterCons(v, StatusFn(UnderReview));
    FilterCons(v, StatusFn(Done));
  }

  /** The four columns together hold each visible record with a column
      status exactly once: their lengths add up to the number of such records. */
  lemma {:induction false} ColumnSizesAddUp(v: seq<Task>)
    ensures ColumnTotal(v) == |Filter(v, OnBoardFn())|
  {
    if v != [] {
      ColumnSizesAddUp(v[1..]);
      ColumnTotalCons(v);
      FilterCons(v, OnBoardFn());
      InColumnsIff(v[0].status);
    }
  }

  /** `ColumnSizesAddUp` for the columns as displayed. */
  lemma ColumnsCoverBoard(tasks: seq<Task>, f: Filters)
    ensures |Column(tasks, f, Todo)| + |Column(tasks, f, InProgress)|
          + |Column(tasks, f, UnderReview)| + |Column(tasks, f, Done)|
         == |Filter(FilterTasks(tasks, f), OnBoardFn())|
  {
    ColumnSizesAddUp(FilterTasks(tasks, f));
  }

  /** The counter for a status is the length of the list filtered by that
      status alone (for any status other than `"all"`, which the status
      filter reads as "no filter"). */
  lemma CountTasksIsStatusFilter(tasks: seq<Task>, s: string)
    requires s != All
    ensures CountTasks(tasks, s) == |FilterTasks(tasks, Filters(s, All, ""))|
  {
    assert Trim("") == "";
    FilterCongruent(tasks, StatusFn(s), VisibleFn(Filters(s, All, "")));
  }

  /** Counting is additive over concatenation. */
  lemma CountTasksAppend(a: seq<Task>, b: seq<Task>, s: string)
    ensures CountTasks(a + b, s) == CountTasks(a, s) + CountTasks(b, s)
  {
    FilterAppend(a, b, StatusFn(s));
  }

  // ---------------------------------------------------------------------
  // Local updates applied once the backend has answered
  // ---------------------------------------------------------------------

  /** The drop handler's rewrite: matching records take the new status. */
  function SetStatus(tasks: seq<Task>, k: Option<string>, s: string): (r: seq<Task>)
    ensures |r| == |tasks|
    ensures forall i :: 0 <= i < |tasks| && Matches(tasks[i], k) ==> r[i] == tasks[i].(status := s)
    ensures forall i :: 0 <= i < |tasks| && !Matches(tasks[i], k) ==> r[i] == tasks[i]
  {
    MapWhere(tasks, MatchFn(k), (t: Task) => t.(status := s))
  }

  /** The edit handler's rewrite: matching records take the new title. */
  function SetTitle(tasks: seq<Task>, k: Option<string>, title: string): (r: seq<Task>)
    ensures |r| == |tasks|
    ensures forall i :: 0 <= i < |tasks| && Matches(tasks[i], k) ==> r[i] == tasks[i].(title := title)
    ensures forall i :: 0 <= i < |tasks| && !Matches(tasks[i], k) ==> r[i] == tasks[i]
  {
    MapWhere(tasks, MatchFn(k), (t: Task) => t.(title := title))
  }

  /** The delete handler's filter: every record answering to `k` goes, the
      rest stay in order and with their multiplicity. */
  function RemoveMatching(tasks: seq<Task>, k: Option<string>): (r: seq<Task>)
    ensures IsSubsequence(r, tasks)
    ensures forall t :: t in r ==> !Matches(t, k)
    ensures forall t :: multiset(r)[t] == if Matches(t, k) then 0 else multiset(tasks)[t]
  {
    Filter(tasks, MissFn(k))
  }

  /** A move onto the column a record is already in changes nothing. */
  lemma SetStatusSameColumn(tasks: seq<Task>, k: Option<string>, s: string)
    requires forall i :: 0 <= i < |tasks| && Matches(tasks[i], k) ==> tasks[i].status == s
    ensures SetStatus(tasks, k, s) == tasks
  {
  }

  /** Moving the records answering to `k` into column `s` raises that
      column's counter by the number of them that were elsewhere. */
  lemma {:induction false} SetStatusCount(tasks: seq<Task>, k: Option<string>, s: string)
    ensures CountTasks(SetStatus(tasks, k, s), s)
         == CountTasks(tasks, s) + |Filter(tasks, (t: Task) => Matches(t, k) && t.status != s)|
  {
    var r := SetStatus(tasks, k, s);
    if tasks != [] {
      SetStatusCount(tasks[1..], k, s);
      assert r[1..] == SetStatus(tasks[1..], k, s);
      FilterCons(r, StatusFn(s));
      FilterCons(tasks, StatusFn(s));
      FilterCons(tasks, (t: Task) => Matches(t, k) && t.status != s);
    }
  }

  /** Renaming a task moves it in no column, so no counter changes. */
  lemma {:induction false} SetTitleKeepsCounts(tasks: seq<Task>, k: Option<string>, title: string, s: string)
    ensures CountTasks(SetTitle(tasks, k, title), s) == CountTasks(tasks, s)
  {
    var r := SetTitle(tasks, k, title);
    if tasks != [] {
      SetTitleKeepsCounts(tasks[1..], k, title, s);
      assert r[1..] == SetTitle(tasks[1..], k, title);
      FilterCons(r, StatusFn(s));
      FilterCons(tasks, StatusFn(s));
    }
  }

  /** Deleting by a key no record answers to leaves the list as it was. */
  lemma RemoveAbsent(tasks: seq<Task>, k: Option<string>)
    requires FirstMatch(tasks, k).None?
    ensures RemoveMatching(tasks, k) == tasks
  {
    FilterAllPass(tasks, MissFn(k));
  }

  /** Moving by a key that no record answers to leaves the list as it was. */
  lemma SetStatusAbsent(tasks: seq<Task>, k: Option<string>, s: string)
    requires FirstMatch(tasks, k).None?
    ensures SetStatus(tasks, k, s) == tasks
  {
    MapWhereNoMatch(tasks, MatchFn(k), (t: Task) => t.(status := s));
  }

  /** Deleting twice by the same key is deleting once. */
  lemma RemoveIdempotent(tasks: seq<Task>, k: Option<string>)
    ensures RemoveMatching(RemoveMatching(tasks, k), k) == RemoveMatching(tasks, k)
  {
    FilterIdempotent(tasks, MissFn(k));
  }

  /** Deleting the key of a record just appended, when no earlier record
      answers to it, restores the list as it was before the append. */
  lemma AddThenRemove(tasks: seq<Task>, t: Task, k: Option<string>)
    requires Matches(t, k) && FirstMatch(tasks, k).None?
    ensures RemoveMatching(tasks + [t], k) == tasks
  {
    FilterAppend(tasks, [t], MissFn(k));
    RemoveAbsent(tasks, k);
    FilterCons([t], MissFn(k));
  }

  // ---------------------------------------------------------------------
  // Handlers
  // ---------------------------------------------------------------------

  /** How a backend call ended: its response data, or the error the `catch`
      block receives. */
  datatype Reply<T> = Ok(data: T) | Failed

  /** The calls the board makes on the task collection. */
  datatype Request = Post(body: Task) | Put(path: string, body: Task) | Delete(path: string)

  /** What one handler run does: the request it issues, if any, and the
      task list afterwards. */
  datatype Step = Step(sent: Option<Request>, tasks: seq<Task>)

  /** The URL path of one task, built by a template literal: an absent key
      is spelled `undefined`. */
  function TaskPath(k: Option<string>): (r: string)
    ensures k.Some? ==> r == "/tasks/" + k.value
    ensures k.None? ==> r == "/tasks/undefined"
  {
    "/tasks/" + k.GetOr("undefined")
  }

  /** Two keys reach the same URL exactly when they are equal, or when one
      is absent and the other is the text `"undefined"`. */
  lemma TaskPathCollision(k1: Option<string>, k2: Option<string>)
    ensures TaskPath(k1) == TaskPath(k2) <==> k1 == k2 || {k1, k2} == {None, Some("undefined")}
  {
    var p := "/tasks/";
    if TaskPath(k1) == TaskPath(k2) {
      assert TaskPath(k1)[|p|..] == k1.GetOr("undefined");
      assert TaskPath(k2)[|p|..] == k2.GetOr("undefined");
      if k1 != k2 {
        assert k1.None? || k2.None?;
        if k1.None? {
          assert k2 == Some("undefined");
        } else {
          assert k1 == Some("undefined");
        }
      }
    }
    if {k1, k2} == {None, Some("undefined")} {
      assert k1 in {None, Some("undefined")} && k2 in {None, Some("undefined")};
    }
  }

  /** The four inputs of the add dialog. */
  datatype AddForm = AddForm(title: string, description: string, person: string, priority: string)

  /** The add dialog's `preConfirm`: the message shown when title or person
      is empty, `None` when the form may be submitted. */
  function PreConfirm(form: AddForm): (r: Option<string>)
    ensures r.None? <==> form.title != "" && form.person != ""
    ensures r.Some? ==> r.value == "Please enter both title and person"
  {
    if form.title == "" || form.person == "" then Some("Please enter both title and person")
    else None
  }

  /** The record the add handler posts for a submitted form. */
  function Draft(form: AddForm): Task {
    Task(None, None, form.title, form.description, form.person, DefaultPhoto, Todo, form.priority)
  }

  /** `handleAddTask`. `form` is what the dialog resolved with (`None` when
      it was dismissed; an invalid form never resolves it, as `preConfirm`
      keeps the dialog open), `reply` the outcome of the POST. On success
      the record the backend returned, not the draft, is appended. */
  function HandleAdd(tasks: seq<Task>, form: Option<AddForm>, reply: Reply<Task>): (r: Step)
    ensures r.sent.Some? <==> form.Some? && PreConfirm(form.value).None?
    ensures r.sent.Some? <==> form.Some? && form.value.title != "" && form.value.person != ""
    ensures r.sent.Some? ==> (
              && r.sent.value.Post?
              && r.sent.value.body.status == Todo && r.sent.value.body.photo == DefaultPhoto
              && r.sent.value.body.docId.None? && r.sent.value.body.id.None?
              && r.sent.value.body.title == form.value.title
              && r.sent.value.body.description == form.value.description
              && r.sent.value.body.person == form.value.person
              && r.sent.value.body.priority == form.value.priority)
    ensures r.sent.Some? && reply.Ok? ==> r.tasks == tasks + [reply.data]
    ensures r.sent.Some? && reply.Ok? ==> |r.tasks| == |tasks| + 1
    ensures r.sent.None? || reply.Failed? ==> r.tasks == tasks
  {
    if form.None? || PreConfirm(form.value).Some? then Step(None, tasks)
    else
      var sent := Some(Post(Draft(form.value)));
      match reply
      case Ok(created) => Step(sent, tasks + [created])
      case Failed => Step(sent, tasks)
  }

  /** `handleDrop`: `transfer` is the id the drag carried (`""` when none),
      `column` the status of the column it was dropped on, `reply` the
      outcome of the PUT. The first matching record, with its status
      replaced, is what is sent; on success every matching record moves. */
  function HandleDrop(tasks: seq<Task>, transfer: string, column: string, reply: Reply<Task>): (r: Step)
    ensures r.sent.None? <==> transfer == "" || FirstMatch(tasks, Some(transfer)).None?
    ensures r.sent.Some? ==> (
              && FirstMatch(tasks, Some(transfer)).Some?
              && r.sent.value == Put("/tasks/" + transfer, tasks[FirstMatch(tasks, Some(transfer)).value].(status := column)))
    ensures |r.tasks| == |tasks|
    ensures r.sent.None? || reply.Failed? ==> r.tasks == tasks
    ensures r.sent.Some? && reply.Ok? ==> forall i :: 0 <= i < |tasks| ==>
      if Matches(tasks[i], Some(transfer)) then r.tasks[i] == tasks[i].(status := column)
      else r.tasks[i] == tasks[i]
  {
    if transfer == "" then Step(None, tasks)
    else
      match FirstMatch(tasks, Some(transfer))
      case None => Step(None, tasks)
      case Some(i) =>
        var sent := Some(Put(TaskPath(Some(transfer)), tasks[i].(status := column)));
        match reply
        case Ok(_) => Step(sent, SetStatus(tasks, Some(transfer), column))
        case Failed => Step(sent, tasks)
  }

  /** `handleDelete`: the DELETE is always issued (there is no local lookup
      first); on success every record answering to `k` is removed. */
  function HandleDelete(tasks: seq<Task>, k: Option<string>, reply: Reply<()>): (r: Step)
    ensures r.sent == Some(Delete(TaskPath(k)))
    ensures reply.Failed? ==> r.tasks == tasks
    ensures reply.Ok? ==> (
              && IsSubsequence(r.tasks, tasks)
              && (forall i :: 0 <= i < |r.tasks| ==> !Matches(r.tasks[i], k))
              && (forall t :: !Matches(t, k) ==> multiset(r.tasks)[t] == multiset(tasks)[t]))
    ensures FirstMatch(tasks, k).None? ==> r.tasks == tasks
  {
    var sent := Some(Delete(TaskPath(k)));
    match reply
    case Ok(_) =>
      assert FirstMatch(tasks, k).None? ==> RemoveMatching(tasks, k) == tasks by {
        if FirstMatch(tasks, k).None? {
          RemoveAbsent(tasks, k);
        }
      }
      Step(sent, RemoveMatching(tasks, k))
    case Failed => Step(sent, tasks)
  }

  /** Deleting from a card removes that card's record from the board. */
  lemma DeleteCardRemovesIt(tasks: seq<Task>, t: Task)
    requires t in tasks
    ensures t !in HandleDelete(tasks, CardKey(t), Ok(())).tasks
  {
  }

  /** `handleUpdate`: `k` is the card's key, `entered` what the title dialog
      resolved with (`None` when dismissed), `reply` the outcome of the PUT.
      Nothing happens when no record answers to `k` or the title is empty. */
  function HandleEdit(tasks: seq<Task>, k: Option<string>, entered: Option<string>, reply: Reply<Task>): (r: Step)
    ensures r.sent.None? <==> FirstMatch(tasks, k).None? || entered.None? || entered.value == ""
    ensures r.sent.Some? ==> (
              && FirstMatch(tasks, k).Some?
              && r.sent.value == Put(TaskPath(k), tasks[FirstMatch(tasks, k).value].(title := entered.value)))
    ensures |r.tasks| == |tasks|
    ensures r.sent.None? || reply.Failed? ==> r.tasks == tasks
    ensures r.sent.Some? && reply.Ok? ==> forall i :: 0 <= i < |tasks| ==>
      if Matches(tasks[i], k) then r.tasks[i] == tasks[i].(title := entered.value)
      else r.tasks[i] == tasks[i]
  {
    match FirstMatch(tasks, k)
    case None => Step(None, tasks)
    case Some(i) =>
      if entered.None? || entered.value == "" then Step(None, tasks)
      else
        var sent := Some(Put(TaskPath(k), tasks[i].(title := entered.value)));
        match reply
        case Ok(_) => Step(sent, SetTitle(tasks, k, entered.value))
        case Failed => Step(sent, tasks)
  }

  /** The first two tasks of a worked run on a two-task board. */
  function ExampleTasks(): seq<Task> {
    [Task(None, Some("1"), "Write", "", "Alice", DefaultPhoto, Todo, "High"),
     Task(None, Some("2"), "Review", "", "Bob", DefaultPhoto, Done, "Low")]
  }

  lemma LowerHigh()
    ensures Lower("High") == "high"
  {
  }

  /** The first example task passes the `"High"` priority filter. */
  lemma ExampleFirstShown()
    ensures Visible(Filters(All, "High", ""), ExampleTasks()[0])
  {
    LowerHigh();
    assert Trim("") == "";
  }

  /** The second example task, of priority `"Low"`, does not. */
  lemma ExampleSecondHidden()
    ensures !Visible(Filters(All, "High", ""), ExampleTasks()[1])
  {
    LowerHigh();
    assert Lower("Low") == "low";
  }

  /** On the example board, the priority filter `"High"` shows only the first task. */
  lemma ExampleFilterByPriority()
    ensures FilterTasks(ExampleTasks(), Filters(All, "High", "")) == ExampleTasks()[..1]
  {
    ExampleSelection();
  }

  lemma ExampleSelection()
    ensures Filter(ExampleTasks(), VisibleFn(Filters(All, "High", ""))) == ExampleTasks()[..1]
  {
    var ts := ExampleTasks();
    var p := VisibleFn(Filters(All, "High", ""));
    ExampleFirstShown();
    ExampleSecondHidden();
    assert p(ts[0]) && !p(ts[1]);
    FilterHead(ts, p);
    FilterHead(ts[1..], p);
    assert ts[1..][1..] == [];
  }

  /** On the example board, a successful drop of task "1" on the
      in-progress column moves it there and empties the todo counter. */
  lemma ExampleMove(reply: Task)
    ensures HandleDrop(ExampleTasks(), "1", InProgress, Ok(reply)).tasks
         == [ExampleTasks()[0].(status := InProgress), ExampleTasks()[1]]
    ensures CountTasks(HandleDrop(ExampleTasks(), "1", InProgress, Ok(reply)).tasks, Todo) == 0
  {
    var ts := ExampleTasks();
    var after := HandleDrop(ts, "1", InProgress, Ok(reply)).tasks;
    assert Matches(ts[0], Some("1")) && !Matches(ts[1], Some("1"));
    assert after == [ts[0].(status := InProgress), ts[1]];
  }
}
