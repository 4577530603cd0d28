/** The subtask list of components/TodoDetailModal.tsx.  Each handler
    builds a new list and hands it to `onUpdate` as `{ subtasks: list }`. */
module TodoDetail {
  import opened Wrappers
  import opened Seqs
  import opened Strs
  import opened Types
  import opened Tree
  import opened Edits

  /** `todo.subtasks || []`. */
  function Subtasks(todo: Node): seq<Subtask> {
    if todo.subtasks.Some? then todo.subtasks.value else []
  }

  /** The patch `{ subtasks: list }`. */
  function SubtasksPatch(list: seq<Subtask>): Patch {
    EmptyPatch.(subtasks := Some(Some(list)))
  }

  /** `handleAddSubtask`: no update for a blank entry; otherwise the new
      subtask, open, at the end. */
  function AddSubtask(todo: Node, input: string, id: string): (r: Option<seq<Subtask>>)
    ensures r.None? <==> IsBlank(input)
    ensures r.Some? ==> |r.value| == |Subtasks(todo)| + 1 && r.value[..|Subtasks(todo)|] == Subtasks(todo)
    ensures r.Some? ==> r.value[|Subtasks(todo)|] == Subtask(id, input, false)
  {
    if IsBlank(input) then None else Some(Subtasks(todo) + [Subtask(id, input, false)])
  }

  /** Sending the new list through `updateNodeInTree` stores it on the
      to-do and stamps it. */
  lemma AddSubtaskStored(ns: seq<Node>, todo: Node, input: string, id: string, now: int)
    requires Find(ns, todo.id) == Some(todo) && !IsBlank(input)
    ensures Find(Update(ns, todo.id, SubtasksPatch(AddSubtask(todo, input, id).value), now), todo.id) ==
            Some(todo.(subtasks := AddSubtask(todo, input, id), updatedAt := now))
  {
    FindAfterUpdate(ns, todo.id, SubtasksPatch(AddSubtask(todo, input, id).value), now);
  }

  function Flip(sid: string, s: Subtask): Subtask {
    if s.id == sid then s.(completed := !s.completed) else s
  }

  /** `toggleSubtask`: the `map` that flips the matching subtasks. */
  function ToggleSubtask(list: seq<Subtask>, sid: string): (r: seq<Subtask>)
    ensures |r| == |list|
    ensures forall i :: 0 <= i < |list| ==>
      r[i].id == list[i].id && r[i].title == list[i].title &&
      (r[i].completed == list[i].completed <==> list[i].id != sid)
  {
    seq(|list|, i requires 0 <= i < |list| => Flip(sid, list[i]))
  }

  /** Toggling the same subtask twice gives back the list. */
  lemma ToggleSubtaskTwice(list: seq<Subtask>, sid: string)
    ensures ToggleSubtask(ToggleSubtask(list, sid), sid) == list
  {
    var r := ToggleSubtask(ToggleSubtask(list, sid), sid);
    forall i | 0 <= i < |list| ensures r[i] == list[i] {
    }
  }

  function OtherSubtask(sid: string): Subtask -> bool {
    (s: Subtask) => s.id != sid
  }

  /** `deleteSubtask`: every subtask with that id goes, the rest stay in
      order. */
  function DeleteSubtask(list: seq<Subtask>, sid: string): (r: seq<Subtask>)
    ensures forall i :: 0 <= i < |r| ==> r[i].id != sid && r[i] in list
    ensures forall i :: 0 <= i < |list| && list[i].id != sid ==> list[i] in r
    ensures IsSubsequence(r, list)
  {
    Filter(list, OtherSubtask(sid))
  }

  /** Deleting an id that is not there keeps the list. */
  lemma DeleteMissingSubtask(list: seq<Subtask>, sid: string)
    requires forall i :: 0 <= i < |list| ==> list[i].id != sid
    ensures DeleteSubtask(list, sid) == list
  {
    FilterAll(list, OtherSubtask(sid));
  }

  function IsDone(): Subtask -> bool {
    (s: Subtask) => s.completed
  }

  /** The `done / total` counter. */
  function Progress(todo: Node): (r: (nat, nat))
    ensures r.0 <= r.1 && r.1 == |Subtasks(todo)|
  {
    (|Filter(Subtasks(todo), IsDone())|, |Subtasks(todo)|)
  }

  /** Toggling an id whose subtasks are all open completes exactly as many
      more subtasks as carry that id. */
  lemma {:induction false} ToggleOpenCounts(list: seq<Subtask>, sid: string)
    requires forall i :: 0 <= i < |list| ==> (list[i].id == sid ==> !list[i].completed)
    ensures |Filter(ToggleSubtask(list, sid), IsDone())| ==
            |Filter(list, IsDone())| + |Filter(list, (s: Subtask) => s.id == sid)|
  {
    if list != [] {
      var t := ToggleSubtask(list, sid);
      assert t[1..] == ToggleSubtask(list[1..], sid);
      ToggleOpenCounts(list[1..], sid);
    }
  }
}
