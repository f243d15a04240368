/** The admin project table (src/components/admin/ProjectList.tsx): drag
    reordering with an optimistic update and rollback, and confirmed deletion.
    The server's answers are inputs. */
module ProjectList {
  import opened Optional

  datatype Project = Project(id: string, slug: string, title: string, published: bool, order: int)

  predicate Listed(projects: seq<Project>, id: string) {
    exists j :: 0 <= j < |projects| && projects[j].id == id
  }

  /** `projects.findIndex((p) => p.id === id)`: the first position holding `id`, or -1. */
  function FindIndex(projects: seq<Project>, id: string): (r: int)
    ensures -1 <= r < |projects|
    ensures r >= 0 ==> projects[r].id == id && forall j :: 0 <= j < r ==> projects[j].id != id
    ensures r == -1 <==> !Listed(projects, id)
  {
    if |projects| == 0 then -1
    else if projects[0].id == id then 0
    else
      var k := FindIndex(projects[1..], id);
      assert forall j :: 1 <= j < |projects| ==> projects[j] == projects[1..][j - 1];
      if k == -1 then -1 else k + 1
  }

  /** dnd-kit's `arrayMove`: take the element at `from` out and insert it at `to`. */
  function ArrayMove<T>(s: seq<T>, from: nat, to: nat): (r: seq<T>)
    requires from < |s| && to < |s|
    ensures |r| == |s|
    ensures r[to] == s[from]
    ensures forall i :: 0 <= i < |s| && ((i < from && i < to) || (i > from && i > to)) ==> r[i] == s[i]
    ensures from <= to ==> forall i :: from <= i < to ==> r[i] == s[i + 1]
    ensures to < from ==> forall i :: to < i <= from ==> r[i] == s[i - 1]
  {
    var rest := s[..from] + s[from + 1..];
    rest[..to] + [s[from]] + rest[to..]
  }

  lemma ArrayMovePermutes<T>(s: seq<T>, from: nat, to: nat)
    requires from < |s| && to < |s|
    ensures multiset(ArrayMove(s, from, to)) == multiset(s)
  {
    var x := s[from];
    var rest := s[..from] + s[from + 1..];
    assert s == s[..from] + [x] + s[from + 1..];
    assert multiset(s) == multiset(rest) + multiset{x};
    assert rest == rest[..to] + rest[to..];
    assert ArrayMove(s, from, to) == rest[..to] + [x] + rest[to..];
    assert multiset(rest[..to] + [x] + rest[to..]) == multiset(rest[..to]) + multiset{x} + multiset(rest[to..]);
  }

  /** Moving back from `to` to `from` undoes a move. */
  lemma ArrayMoveInverse<T>(s: seq<T>, from: nat, to: nat)
    requires from < |s| && to < |s|
    ensures ArrayMove(ArrayMove(s, from, to), to, from) == s
  {
    var m := ArrayMove(s, from, to);
    var b := ArrayMove(m, to, from);
    forall i | 0 <= i < |s|
      ensures b[i] == s[i]
    {
      if i == from {
      } else if from <= to && from < i <= to {
        assert b[i] == m[i - 1];
      } else if to < from && to <= i < from {
        assert b[i] == m[i + 1];
      }
    }
  }

  /** One entry of the `{ orders }` payload. */
  datatype OrderEntry = OrderEntry(id: string, order: int)

  /** `newProjects.map((p, index) => ({ id: p.id, order: index }))`. */
  function Orders(projects: seq<Project>): (r: seq<OrderEntry>)
    ensures |r| == |projects|
    ensures forall i :: 0 <= i < |r| ==> r[i].id == projects[i].id && r[i].order == i
  {
    seq(|projects|, i requires 0 <= i < |projects| => OrderEntry(projects[i].id, i))
  }

  /** How the `PUT` that saves the new order ended: `res.ok`, a non-ok
      response, or a thrown `fetch`. */
  datatype SaveResult = Saved | SaveRejected | SaveThrew

  /** The list shown right after the drop, the list once the save has
      settled, and the payload sent (none when nothing was saved). */
  datatype DragOutcome = DragOutcome(shown: seq<Project>, settled: seq<Project>, payload: Option<seq<OrderEntry>>)

  /** `handleDragEnd`. dnd-kit reports only ids of rows in the table, so both
      ids are listed. */
  function HandleDragEnd(projects: seq<Project>, active: string, over: Option<string>, save: SaveResult): (r: DragOutcome)
    requires Listed(projects, active)
    requires over.Some? ==> Listed(projects, over.value)
    ensures over.None? || over.value == active ==>
              r.shown == projects && r.settled == projects && r.payload.None?
    ensures over.Some? && over.value != active ==>
              var from := FindIndex(projects, active);
              var to := FindIndex(projects, over.value);
              && r.shown == ArrayMove(projects, from, to)
              && |r.shown| == |projects|
              && multiset(r.shown) == multiset(projects)
              && r.shown[to] == projects[from]
              && r.payload.Some?
              && |r.payload.value| == |projects|
              && (forall i :: 0 <= i < |projects| ==> r.payload.value[i] == OrderEntry(r.shown[i].id, i))
              && (save == Saved ==> r.settled == r.shown)
              && (save != Saved ==> r.settled == projects)
  {
    if over.None? || active == over.value then DragOutcome(projects, projects, None)
    else
      var from := FindIndex(projects, active);
      var to := FindIndex(projects, over.value);
      var moved := ArrayMove(projects, from, to);
      ArrayMovePermutes(projects, from, to);
      var settled := if save == Saved then moved else projects;
      DragOutcome(moved, settled, Some(Orders(moved)))
  }

  /** A drop onto another row changes the list, so the table never shows a
      spurious "reordered" state for a real move. */
  lemma DragMovesTheRow(projects: seq<Project>, active: string, target: string, save: SaveResult)
    requires Listed(projects, active) && Listed(projects, target) && active != target
    ensures HandleDragEnd(projects, active, Some(target), save).shown[FindIndex(projects, target)].id == active
    ensures HandleDragEnd(projects, active, Some(target), save).shown != projects
  {
    var to := FindIndex(projects, target);
    var shown := HandleDragEnd(projects, active, Some(target), save).shown;
    assert shown[to].id == active && projects[to].id == target;
  }

  // ---------------------------------------------------------------------------
  // Deletion

  /** `projects.filter((p) => p.id !== id)`. */
  function WithoutId(projects: seq<Project>, id: string): (r: seq<Project>)
    ensures forall p :: p in r <==> p in projects && p.id != id
    ensures |r| <= |projects|
  {
    if |projects| == 0 then []
    else
      var rest := WithoutId(projects[1..], id);
      assert forall p :: p in projects <==> p == projects[0] || p in projects[1..];
      if projects[0].id != id then [projects[0]] + rest else rest
  }

  /** Filtering distributes over concatenation, so the surviving rows keep
      their relative order. */
  lemma {:induction false} WithoutIdAppend(a: seq<Project>, b: seq<Project>, id: string)
    ensures WithoutId(a + b, id) == WithoutId(a, id) + WithoutId(b, id)
  {
    if |a| == 0 {
      assert a + b == b;
    } else {
      assert (a + b)[1..] == a[1..] + b;
      WithoutIdAppend(a[1..], b, id);
    }
  }

  /** Deleting an id that is not listed changes nothing; in particular a
      second deletion of the same id is a no-op. */
  lemma {:induction false} WithoutAbsentId(projects: seq<Project>, id: string)
    requires !Listed(projects, id)
    ensures WithoutId(projects, id) == projects
  {
    if |projects| > 0 {
      assert !Listed(projects[1..], id) by {
        assert forall j :: 1 <= j < |projects| ==> projects[1..][j - 1] == projects[j];
      }
      WithoutAbsentId(projects[1..], id);
      assert projects == [projects[0]] + projects[1..];
    }
  }

  lemma WithoutIdIdempotent(projects: seq<Project>, id: string)
    ensures WithoutId(WithoutId(projects, id), id) == WithoutId(projects, id)
  {
    var r := WithoutId(projects, id);
    assert !Listed(r, id) by {
      assert forall j :: 0 <= j < |r| ==> r[j] in r;
    }
    WithoutAbsentId(r, id);
  }

  /** The delete confirmation modal's target (`deleteModal`). */
  datatype PendingDelete = PendingDelete(id: string, title: string)

  datatype DeleteState = DeleteState(projects: seq<Project>, pending: Option<PendingDelete>)

  /** How `DELETE /api/projects/{id}` ended: `res.ok`, a non-ok response, or a
      thrown `fetch`. */
  datatype DeleteReply = Deleted | DeleteRejected | DeleteThrew

  /** `handleDeleteConfirm`. On failure the modal stays open and the list is kept. */
  function ConfirmDelete(state: DeleteState, reply: DeleteReply): (r: DeleteState)
    ensures state.pending.None? ==> r == state
    ensures state.pending.Some? && reply == Deleted ==>
              && r.pending.None?
              && r.projects == WithoutId(state.projects, state.pending.value.id)
              && (forall p :: p in r.projects <==> p in state.projects && p.id != state.pending.value.id)
    ensures state.pending.Some? && reply != Deleted ==> r == state
  {
    match state.pending
    case None => state
    case Some(target) =>
      if reply == Deleted then DeleteState(WithoutId(state.projects, target.id), None)
      else state
  }
}
