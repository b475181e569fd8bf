/**
 The client's task list: what it shows for a loading flag and a list of
 tasks. While loading it shows a loading notice; with no tasks it shows an
 invitation to create one; otherwise it splits the tasks into active and
 completed ones and shows a section for each group that is not empty,
 active first.
 */
module TaskListView {
  import opened TaskModel

  /** The tasks whose completion flag is `done`, in the order they came. */
  function Select(tasks: seq<Task>, done: bool): (r: seq<Task>)
    ensures |r| <= |tasks|
    ensures forall k :: 0 <= k < |r| ==> r[k].completed == done
    decreases |tasks|
  {
    if tasks == [] then []
    else
      var last := tasks[|tasks| - 1];
      Select(tasks[..|tasks| - 1], done) + (if last.completed == done then [last] else [])
  }

  datatype Group = ActiveGroup | CompletedGroup

  /** The tasks a group's section lists. */
  function GroupTasks(tasks: seq<Task>, g: Group): seq<Task> {
    Select(tasks, g == CompletedGroup)
  }

  /** The positions in `tasks` of the tasks whose flag is `done`, ascending. */
  function Positions(tasks: seq<Task>, done: bool): seq<nat>
    decreases |tasks|
  {
    if tasks == [] then []
    else
      var n := |tasks| - 1;
      Positions(tasks[..n], done) + (if tasks[n].completed == done then [n] else [])
  }

  /** A group lists exactly the tasks with the group's flag, each at its
      position in the input and in input order: the k-th task of the group
      is the input task at the k-th position with that flag. */
  lemma {:induction false} SelectKeepsOrder(tasks: seq<Task>, done: bool)
    ensures var r := Select(tasks, done);
      var p := Positions(tasks, done);
      && |p| == |r|
      && (forall k :: 0 <= k < |p| ==> p[k] < |tasks| && r[k] == tasks[p[k]])
      && (forall k, l :: 0 <= k < l < |p| ==> p[k] < p[l])
      && (forall i :: 0 <= i < |tasks| ==> (tasks[i].completed == done <==> i in p))
  {
    PositionsPick(tasks, done);
    PositionsComplete(tasks, done);
  }

  lemma {:induction false} PositionsPick(tasks: seq<Task>, done: bool)
    ensures var r := Select(tasks, done);
      var p := Positions(tasks, done);
      && |p| == |r|
      && (forall k :: 0 <= k < |p| ==> p[k] < |tasks| && r[k] == tasks[p[k]])
      && (forall k, l :: 0 <= k < l < |p| ==> p[k] < p[l])
    decreases |tasks|
  {
    if tasks != [] {
      var n := |tasks| - 1;
      var front := tasks[..n];
      PositionsPick(front, done);
      var r := Select(tasks, done);
      var p := Positions(tasks, done);
      var r0 := Select(front, done);
      var p0 := Positions(front, done);
      assert r == r0 + (if tasks[n].completed == done then [tasks[n]] else []);
      assert p == p0 + (if tasks[n].completed == done then [n] else []);
      forall k | 0 <= k < |p| ensures p[k] < |tasks| && r[k] == tasks[p[k]] {
        if k < |p0| {
          assert p[k] == p0[k] && r[k] == r0[k];
          assert front[p0[k]] == tasks[p0[k]];
        }
      }
    }
  }

  lemma {:induction false} PositionsComplete(tasks: seq<Task>, done: bool)
    ensures forall i :: 0 <= i < |tasks| ==> (tasks[i].completed == done <==> i in Positions(tasks, done))
    decreases |tasks|
  {
    if tasks != [] {
      var n := |tasks| - 1;
      var front := tasks[..n];
      PositionsComplete(front, done);
      PositionsBelow(front, done);
      var p := Positions(tasks, done);
      var p0 := Positions(front, done);
      assert p == p0 + (if tasks[n].completed == done then [n] else []);
      forall i | 0 <= i < |tasks| ensures tasks[i].completed == done <==> i in p {
        if i < n {
          assert tasks[i] == front[i];
        } else {
          assert n !in p0;
        }
      }
    }
  }

  lemma {:induction false} PositionsBelow(tasks: seq<Task>, done: bool)
    ensures forall i :: i in Positions(tasks, done) ==> i < |tasks|
    decreases |tasks|
  {
    if tasks != [] {
      PositionsBelow(tasks[..|tasks| - 1], done);
    }
  }

  /** A task is in a group exactly when it is among the input tasks and its
      flag is the group's. */
  lemma {:induction false} SelectMembership(tasks: seq<Task>, done: bool, t: Task)
    ensures t in Select(tasks, done) <==> t in tasks && t.completed == done
    decreases |tasks|
  {
    if tasks != [] {
      var n := |tasks| - 1;
      SelectMembership(tasks[..n], done, t);
      assert tasks == tasks[..n] + [tasks[n]];
    }
  }

  /** The two groups split the input: every task lands in exactly one of
      them, as many times as it occurs in the input. */
  lemma {:induction false} GroupsPartition(tasks: seq<Task>)
    ensures |GroupTasks(tasks, CompletedGroup)| + |GroupTasks(tasks, ActiveGroup)| == |tasks|
    ensures multiset(GroupTasks(tasks, CompletedGroup)) + multiset(GroupTasks(tasks, ActiveGroup)) == multiset(tasks)
    ensures forall t :: t in GroupTasks(tasks, CompletedGroup) ==> t !in GroupTasks(tasks, ActiveGroup)
    decreases |tasks|
  {
    if tasks != [] {
      var n := |tasks| - 1;
      GroupsPartition(tasks[..n]);
      assert tasks == tasks[..n] + [tasks[n]];
    }
  }

  /** A titled section: "Active Tasks (n)" or "Completed Tasks (n)" above the tasks of the group. */
  datatype Section = Section(group: Group, tasks: seq<Task>)

  datatype View =
    | Loading                      // "Loading tasks..."
    | NoTasks                      // "No tasks yet. Create your first task above!"
    | Sections(sections: seq<Section>)

  /** What the list shows. */
  function Render(tasks: seq<Task>, loading: bool): (v: View)
    ensures loading ==> v == Loading
    ensures !loading && tasks == [] ==> v == NoTasks
    ensures !loading && tasks != [] ==> v.Sections?
  {
    if loading then Loading
    else if |tasks| == 0 then NoTasks
    else
      var active := GroupTasks(tasks, ActiveGroup);
      var completed := GroupTasks(tasks, CompletedGroup);
      Sections(
        (if |active| > 0 then [Section(ActiveGroup, active)] else [])
        + (if |completed| > 0 then [Section(CompletedGroup, completed)] else []))
  }

  predicate Shows(v: View, g: Group) {
    v.Sections? && exists k :: 0 <= k < |v.sections| && v.sections[k].group == g
  }

  /** With tasks to show, a group's section appears exactly when the group
      is not empty, it lists that group, active comes before completed, and
      at least one section appears. */
  lemma RenderShowsNonEmptyGroups(tasks: seq<Task>)
    requires tasks != []
    ensures Render(tasks, false).Sections?
    ensures forall g :: Shows(Render(tasks, false), g) <==> GroupTasks(tasks, g) != []
    ensures var ss := Render(tasks, false).sections;
      forall k :: 0 <= k < |ss| ==> ss[k].tasks == GroupTasks(tasks, ss[k].group) && ss[k].tasks != []
    ensures var ss := Render(tasks, false).sections;
      var a := Section(ActiveGroup, GroupTasks(tasks, ActiveGroup));
      var c := Section(CompletedGroup, GroupTasks(tasks, CompletedGroup));
      ss == [a] || ss == [c] || ss == [a, c]
  {
    GroupsPartition(tasks);
    var a := GroupTasks(tasks, ActiveGroup);
    var c := GroupTasks(tasks, CompletedGroup);
    var v := Render(tasks, false);
    if a != [] && c != [] {
      assert v.sections == [Section(ActiveGroup, a), Section(CompletedGroup, c)];
      assert v.sections[0].group == ActiveGroup && v.sections[1].group == CompletedGroup;
    } else if a != [] {
      assert v.sections == [Section(ActiveGroup, a)];
      assert v.sections[0].group == ActiveGroup;
    } else {
      assert c != [];
      assert v.sections == [Section(CompletedGroup, c)];
      assert v.sections[0].group == CompletedGroup;
    }
  }
}
