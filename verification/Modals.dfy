/**
 The modal stack: every operation that runs between two awaits is one atomic step. Elements are named by
 an id; their flags are set when their content has loaded.
 */
module Modals {
  import opened BackupPaths

  datatype Modal = Modal(id: nat, path: string, noBackdrop: bool, restorable: bool)

  const BASE_Z_INDEX := 5000

  /** `sameModalPath`: leading slashes do not count. */
  predicate SameModalPath(left: string, right: string) {
    LStrip(left) == LStrip(right)
  }

  /** `findModalIndexByPath` */
  function FindModalIndex(stack: seq<Modal>, path: string): (i: int)
    ensures -1 <= i < |stack|
    ensures i >= 0 ==> LStrip(stack[i].path) == LStrip(path) && forall j :: 0 <= j < i ==> LStrip(stack[j].path) != LStrip(path)
    ensures i < 0 ==> forall m :: m in stack ==> LStrip(m.path) != LStrip(path)
  {
    if stack == [] then -1
    else if SameModalPath(stack[0].path, path) then 0
    else var i := FindModalIndex(stack[1..], path); if i < 0 then -1 else i + 1
  }

  /** `restorableModalSnapshot` */
  function Snapshot(stack: seq<Modal>): seq<string> {
    if stack == [] then []
    else if stack[0].restorable then [stack[0].path] + Snapshot(stack[1..])
    else Snapshot(stack[1..])
  }

  /** The stack without the modals of a path, the others in order. */
  function Without(stack: seq<Modal>, path: string): seq<Modal> {
    if stack == [] then []
    else if SameModalPath(stack[0].path, path) then Without(stack[1..], path)
    else [stack[0]] + Without(stack[1..], path)
  }

  predicate DistinctIds(stack: seq<Modal>) {
    forall i, j :: 0 <= i < j < |stack| ==> stack[i].id != stack[j].id
  }

  predicate FreshIds(stack: seq<Modal>, next: nat) {
    DistinctIds(stack) && forall i :: 0 <= i < |stack| ==> stack[i].id < next
  }

  lemma FreshRemove(stack: seq<Modal>, i: nat, next: nat)
    requires FreshIds(stack, next) && i < |stack|
    ensures FreshIds(stack[..i] + stack[i + 1..], next)
    ensures FreshIds(stack[..i] + stack[i + 1..] + [stack[i]], next)
  {
  }

  lemma FreshAppend(stack: seq<Modal>, m: Modal, next: nat)
    requires FreshIds(stack, next) && m.id == next
    ensures FreshIds(stack + [m], next + 1) && FreshIds(stack, next + 1)
  {
  }

  datatype Backdrop = Backdrop(visible: bool, zIndex: int)

  /** The highest modal that wants a backdrop, or -1. */
  function TopBackdropIndex(stack: seq<Modal>): (i: int)
    ensures -1 <= i < |stack|
    ensures i >= 0 ==> !stack[i].noBackdrop
    ensures forall j :: i < j < |stack| ==> stack[j].noBackdrop
  {
    if stack == [] then -1
    else if !stack[|stack| - 1].noBackdrop then |stack| - 1
    else TopBackdropIndex(stack[..|stack| - 1])
  }

  /** The backdrop is hidden when no modal wants it; otherwise it lies strictly below the highest modal that
      does and strictly above every modal under that one. */
  ghost predicate WellPlaced(stack: seq<Modal>, z: map<nat, int>, b: Backdrop)
    requires forall m :: m in stack ==> m.id in z
  {
    var top := TopBackdropIndex(stack);
    && b.visible == (top >= 0)
    && (top >= 0 ==> b.zIndex < z[stack[top].id] && forall j :: 0 <= j < top ==> z[stack[j].id] < b.zIndex)
  }

  /** Higher on the stack means strictly in front. */
  ghost predicate Stacked(stack: seq<Modal>, z: map<nat, int>)
    requires forall m :: m in stack ==> m.id in z
  {
    forall i, j :: 0 <= i < j < |stack| ==> z[stack[i].id] < z[stack[j].id]
  }

  lemma NothingPlaced(stack: seq<Modal>, z: map<nat, int>, b: Backdrop)
    requires stack == [] && !b.visible
    ensures Stacked(stack, z) && WellPlaced(stack, z, b)
  {
  }

  /** The first modal of that path comes to the top, or a new one does; the others keep their order. */
  predicate OnTop(was: seq<Modal>, now: seq<Modal>, path: string) {
    var i := FindModalIndex(was, path);
    if i >= 0 then now == was[..i] + was[i + 1..] + [was[i]]
    else |now| == |was| + 1 && now[..|was|] == was && now[|was|].path == path
  }

  datatype CloseResult = NothingToClose | Refused | Closed
  datatype ToggleResult = ToggleOpened | ToggleRefused | ToggleClosed

  class ModalStack {
    var stack: seq<Modal>
    var zIndex: map<nat, int>
    var backdrop: Backdrop
    var saved: seq<string>
    var restoring: bool
    var nextId: nat

    ghost predicate Fresh()
      reads this
    {
      FreshIds(stack, nextId)
    }

    ghost predicate Placed()
      reads this
    {
      (forall m :: m in stack ==> m.id in zIndex) && Stacked(stack, zIndex) && WellPlaced(stack, zIndex, backdrop)
    }

    /** What every atomic step keeps. */
    ghost predicate Valid()
      reads this
    {
      Fresh() && Placed() && (!restoring ==> saved == Snapshot(stack))
    }

    constructor ()
      ensures Valid() && stack == [] && !restoring
    {
      stack, zIndex, backdrop, saved, restoring, nextId := [], map[], Backdrop(false, 0), [], false, 0;
    }

    method UpdateModalZIndexes()
      requires Fresh()
      modifies `zIndex, `backdrop
      ensures Placed()
      ensures forall i :: 0 <= i < |stack| ==> zIndex[stack[i].id] == BASE_Z_INDEX + 20 * i
    {
      for i := 0 to |stack|
        invariant forall j :: 0 <= j < i ==> stack[j].id in zIndex && zIndex[stack[j].id] == BASE_Z_INDEX + j * 20
      {
        zIndex := zIndex[stack[i].id := BASE_Z_INDEX + i * 20];
      }
      var wanting := 0;
      for i := 0 to |stack|
        invariant 0 <= wanting <= i
        invariant wanting == i <==> forall j :: 0 <= j < i ==> !stack[j].noBackdrop
        invariant wanting == 0 <==> forall j :: 0 <= j < i ==> stack[j].noBackdrop
      {
        if !stack[i].noBackdrop { wanting := wanting + 1; }
      }
      if wanting == 0 {
        backdrop := backdrop.(visible := false);
        return;
      }
      if wanting == |stack| && |stack| > 1 {
        var topModalIndex := |stack| - 1;
        backdrop := Backdrop(true, BASE_Z_INDEX + (topModalIndex - 1) * 20 + 10);
      } else {
        var top := TopBackdropIndex(stack);
        backdrop := Backdrop(true, if top > 0 then BASE_Z_INDEX + (top - 1) * 20 + 10 else BASE_Z_INDEX - 1);
      }
    }

    method PersistRestorableModalStack(force: bool := false)
      modifies `saved
      ensures saved == if restoring && !force then old(saved) else Snapshot(stack)
    {
      if restoring && !force {
        return;
      }
      saved := Snapshot(stack);
    }

    method ActivateModal()
      requires Fresh()
      modifies `zIndex, `backdrop, `saved
      ensures Valid()
      ensures restoring ==> saved == old(saved)
    {
      UpdateModalZIndexes();
      PersistRestorableModalStack();
    }

    method RefreshModalStack()
      requires Fresh()
      modifies `zIndex, `backdrop, `saved
      ensures Valid()
      ensures restoring ==> saved == old(saved)
    {
      ActivateModal();
    }

    method OpenModal(path: string)
      requires Valid()
      modifies this
      ensures Valid() && restoring == old(restoring)
      ensures restoring ==> saved == old(saved)
      ensures |stack| == |old(stack)| + 1 && stack[..|old(stack)|] == old(stack)
      ensures var m := stack[|old(stack)|]; m.path == path && !m.noBackdrop && !m.restorable
    {
      hide Stacked, WellPlaced, Snapshot, TopBackdropIndex, FreshIds;
      var modal := Modal(nextId, path, false, false);
      FreshAppend(stack, modal, nextId);
      nextId := nextId + 1;
      UpdateModalZIndexes();
      stack := stack + [modal];
      ActivateModal();
    }

    /** The content of a modal has loaded, and its flags are known. */
    method ContentLoaded(index: nat, noBackdrop: bool, restorable: bool)
      requires Valid() && index < |stack|
      modifies this
      ensures Valid() && restoring == old(restoring)
      ensures restoring ==> saved == old(saved)
      ensures stack == old(stack)[index := old(stack)[index].(noBackdrop := noBackdrop, restorable := restorable)]
    {
      hide Stacked, WellPlaced, Snapshot, TopBackdropIndex;
      stack := stack[index := stack[index].(noBackdrop := noBackdrop, restorable := restorable)];
      RefreshModalStack();
    }

    /** The modal of that path goes to the top; the others keep their order. */
    method FocusModal(path: string) returns (found: bool)
      requires Valid()
      modifies this
      ensures Valid() && restoring == old(restoring)
      ensures restoring ==> saved == old(saved)
      ensures found == (FindModalIndex(old(stack), path) >= 0)
      ensures stack == if found then
          var i := FindModalIndex(old(stack), path); old(stack)[..i] + old(stack)[i + 1..] + [old(stack)[i]]
        else old(stack)
    {
      hide Stacked, WellPlaced, Snapshot, TopBackdropIndex;
      var i := FindModalIndex(stack, path);
      if i == -1 {
        return false;
      }
      FreshRemove(stack, i, nextId);
      var modal := stack[i];
      stack := stack[..i] + stack[i + 1..];
      stack := stack + [modal];
      ActivateModal();
      return true;
    }

    method EnsureModalOpen(path: string)
      requires Valid()
      modifies this
      ensures Valid() && restoring == old(restoring)
      ensures restoring ==> saved == old(saved)
      ensures stack != [] && LStrip(stack[|stack| - 1].path) == LStrip(path)
      ensures OnTop(old(stack), stack, path)
    {
      var focused := FocusModal(path);
      if !focused {
        OpenModal(path);
      }
    }

    /** `closeModal(path)`; the empty path means the top modal. `allowed` is the answer of the hooks. */
    method CloseModal(path: string, allowed: bool) returns (r: CloseResult)
      requires Valid()
      modifies this
      ensures Valid() && restoring == old(restoring)
      ensures restoring ==> saved == old(saved)
      ensures var i := if path == "" then |old(stack)| - 1 else FindModalIndex(old(stack), path);
        && (r == NothingToClose <==> i < 0)
        && (r == Closed <==> i >= 0 && allowed)
        && stack == if r == Closed then old(stack)[..i] + old(stack)[i + 1..] else old(stack)
    {
      if |stack| == 0 {
        return NothingToClose;
      }
      var i := |stack| - 1;
      if path != "" {
        i := FindModalIndex(stack, path);
        if i == -1 {
          return NothingToClose;
        }
      }
      if !allowed {
        return Refused;
      }
      RemoveModal(i);
      return Closed;
    }

    /** The end of `closeModal`: `splice` or `pop`, then the new top modal is activated. */
    method RemoveModal(i: nat)
      requires Valid() && i < |stack|
      modifies this
      ensures Valid() && restoring == old(restoring)
      ensures restoring ==> saved == old(saved)
      ensures stack == old(stack)[..i] + old(stack)[i + 1..]
    {
      hide Stacked, Snapshot, TopBackdropIndex;
      FreshRemove(stack, i, nextId);
      stack := stack[..i] + stack[i + 1..];
      if |stack| == 0 {
        backdrop := backdrop.(visible := false);
        NothingPlaced(stack, zIndex, backdrop);
      } else {
        ActivateModal();
      }
      PersistRestorableModalStack();
    }

    /** `toggleModal`: opens the modal, or closes modals until none of that path is left. `allows(n)` is the
        answer of the hooks to the `n`th close. */
    method ToggleModal(path: string, allows: nat -> bool) returns (r: ToggleResult)
      requires Valid()
      modifies this
      ensures Valid() && restoring == old(restoring)
      ensures restoring ==> saved == old(saved)
      ensures r == ToggleOpened <==> FindModalIndex(old(stack), path) < 0
      ensures r == ToggleOpened ==>
        |stack| == |old(stack)| + 1 && stack[..|old(stack)|] == old(stack) && stack[|old(stack)|].path == path
      // a named path: exactly its modals are gone
      ensures r == ToggleClosed && path != "" ==> stack == Without(old(stack), path)
      // the empty path: everything from the first modal of that path upward is gone
      ensures r == ToggleClosed && path == "" ==> stack == old(stack)[..FindModalIndex(old(stack), path)]
      // refused: some modal of the path is left, and nothing but modals of a named path was closed, or the top
      // modals down to some modal above the first one of the empty path
      ensures r == ToggleRefused ==> FindModalIndex(stack, path) != -1
      ensures r == ToggleRefused && path != "" ==> Without(stack, path) == Without(old(stack), path)
      ensures r == ToggleRefused && path == "" ==> stack <= old(stack)
    {
      hide Stacked, WellPlaced, Snapshot, TopBackdropIndex, FreshIds, FindModalIndex, Without;
      var i := FindModalIndex(stack, path);
      if i == -1 {
        OpenModal(path);
        return ToggleOpened;
      }
      var n := 0;
      ToggleStart(stack, path);
      while FindModalIndex(stack, path) != -1
        invariant Valid() && restoring == old(restoring) && (restoring ==> saved == old(saved))
        invariant Toggling(old(stack), stack, path)
        decreases |stack|
      {
        ghost var before := stack;
        var closed := CloseModal(path, allows(n));
        n := n + 1;
        if closed == Refused {
          return ToggleRefused;
        }
        ToggleStep(old(stack), before, path);
      }
      ToggleEnd(old(stack), stack, path);
      return ToggleClosed;
    }

    /** Between a reload and the end of the restore window nothing is saved; then everything is. */
    method RestoreSession(paths: seq<string>)
      requires Valid() && !restoring
      modifies this
      ensures Valid() && restoring && saved == old(saved)
      // an empty stack, and different paths: exactly they are open again, in their order
      ensures old(stack) == [] && (forall i, j :: 0 <= i < j < |paths| ==> LStrip(paths[i]) != LStrip(paths[j])) ==>
        |stack| == |paths| && forall i :: 0 <= i < |paths| ==> stack[i].path == paths[i]
      // in any case each path is open, and nothing that was open is closed
      ensures (forall p :: p in paths ==> LStrip(p) in OpenPaths(stack)) && Everything(old(stack)) <= Everything(stack)
    {
      hide Stacked, WellPlaced, Snapshot, TopBackdropIndex, FreshIds, FindModalIndex, Opened, DifferentPaths, OpenPaths, Everything, LStrip, OnTop;
      restoring := true;
      NoneOpened(stack, paths);
      for i := 0 to |paths|
        invariant Valid() && restoring && saved == old(saved)
        invariant forall j :: 0 <= j < i ==> LStrip(paths[j]) in OpenPaths(stack)
        invariant Everything(old(stack)) <= Everything(stack)
        invariant old(stack) == [] && DifferentPaths(paths) ==> Opened(stack, paths, i)
      {
        ghost var before := stack;
        EnsureModalOpen(paths[i]);
        OpenedOnTop(before, stack, paths[i]);
        if Opened(before, paths, i) && DifferentPaths(paths) { OpenedNext(before, stack, paths, i); }
      }
      AllOpened(stack, paths);
    }

    method EndRestore()
      requires Valid()
      modifies this
      ensures Valid() && !restoring && stack == old(stack)
    {
      hide Stacked, WellPlaced, Snapshot, TopBackdropIndex, FreshIds;
      restoring := false;
      PersistRestorableModalStack(true);
    }
  }

  /** The modal at `i` moved to the top: the same modals. */
  lemma MovedUp(was: seq<Modal>, i: nat)
    requires i < |was|
    ensures forall m :: m in was ==> m in was[..i] + was[i + 1..] + [was[i]]
  {
    forall m | m in was ensures m in was[..i] + was[i + 1..] + [was[i]] {
      assert was == was[..i] + [was[i]] + was[i + 1..];
    }
  }

  function Everything(stack: seq<Modal>): set<Modal> {
    set m | m in stack
  }

  /** The paths that are open, without leading slashes. */
  function OpenPaths(stack: seq<Modal>): set<string> {
    set m | m in stack :: LStrip(m.path)
  }

  lemma StillOpen(was: seq<Modal>, now: seq<Modal>)
    requires Everything(was) <= Everything(now)
    ensures OpenPaths(was) <= OpenPaths(now)
  {
    forall p | p in OpenPaths(was) ensures p in OpenPaths(now) {
      var m :| m in was && LStrip(m.path) == p;
      assert m in Everything(was);
    }
  }

  lemma AddedOnTop(was: seq<Modal>, now: seq<Modal>)
    requires |now| == |was| + 1 && now[..|was|] == was
    ensures forall m :: m in was ==> m in now
  {
    assert now == was + [now[|was|]];
  }

  lemma NothingLost(was: seq<Modal>, now: seq<Modal>, path: string)
    requires OnTop(was, now, path)
    ensures Everything(was) <= Everything(now)
  {
    var i := FindModalIndex(was, path);
    hide FindModalIndex;
    if i >= 0 { MovedUp(was, i); } else { AddedOnTop(was, now); }
  }

  /** Every modal that was there is there, and one of that path is. */
  lemma OpenedOnTop(was: seq<Modal>, now: seq<Modal>, path: string)
    requires now != [] && LStrip(now[|now| - 1].path) == LStrip(path) && OnTop(was, now, path)
    ensures Everything(was) <= Everything(now) && OpenPaths(was) <= OpenPaths(now) && LStrip(path) in OpenPaths(now)
  {
    hide LStrip, OnTop, Everything;
    NothingLost(was, now, path);
    StillOpen(was, now);
    assert now[|now| - 1] in now;
  }

  /** The first `n` of these paths are open, in their order. */
  predicate Opened(stack: seq<Modal>, paths: seq<string>, n: nat)
    requires n <= |paths|
  {
    |stack| == n && forall i :: 0 <= i < n ==> stack[i].path == paths[i]
  }

  predicate DifferentPaths(paths: seq<string>) {
    forall i, j :: 0 <= i < j < |paths| ==> !SameModalPath(paths[i], paths[j])
  }

  lemma NoneOpened(stack: seq<Modal>, paths: seq<string>)
    ensures stack == [] ==> Opened(stack, paths, 0)
  {
  }

  lemma AllOpened(stack: seq<Modal>, paths: seq<string>)
    ensures DifferentPaths(paths) <==> forall i, j :: 0 <= i < j < |paths| ==> LStrip(paths[i]) != LStrip(paths[j])
    ensures Opened(stack, paths, |paths|) ==> |stack| == |paths| && forall i :: 0 <= i < |paths| ==> stack[i].path == paths[i]
  {
  }

  lemma OpenedNext(was: seq<Modal>, now: seq<Modal>, paths: seq<string>, n: nat)
    requires n < |paths| && DifferentPaths(paths) && Opened(was, paths, n)
    requires OnTop(was, now, paths[n])
    ensures Opened(now, paths, n + 1)
  {
    hide LStrip;
    assert FindModalIndex(was, paths[n]) < 0;
    forall i | 0 <= i < n + 1 ensures now[i].path == paths[i] {
      if i < n { assert now[..|was|][i] == was[i]; }
    }
  }

  /** The saved session lists the restorable modals from the bottom of the stack to its top. */
  lemma {:induction false} SnapshotInOrder(below: seq<Modal>, m: Modal)
    ensures Snapshot(below + [m]) == if m.restorable then Snapshot(below) + [m.path] else Snapshot(below)
    ensures Snapshot([]) == []
  {
    if below == [] {
      assert below + [m] == [m];
    } else {
      assert (below + [m])[1..] == below[1..] + [m];
      SnapshotInOrder(below[1..], m);
    }
  }

  /** What every round of `toggleModal` keeps. */
  predicate Toggling(was: seq<Modal>, now: seq<Modal>, path: string) {
    && (path != "" ==> Without(now, path) == Without(was, path))
    && (path == "" ==> FindModalIndex(was, path) <= |now| <= |was| && now == was[..|now|])
  }

  lemma ToggleStart(stack: seq<Modal>, path: string)
    ensures Toggling(stack, stack, path)
  {
  }

  lemma ToggleStep(was: seq<Modal>, before: seq<Modal>, path: string)
    requires Toggling(was, before, path) && FindModalIndex(before, path) != -1
    ensures var i := if path == "" then |before| - 1 else FindModalIndex(before, path);
      Toggling(was, before[..i] + before[i + 1..], path)
  {
    var i := FindModalIndex(before, path);
    if path == "" {
      assert was[i] == before[i];
      assert before[..|before| - 1] + before[|before|..] == was[..|before| - 1];
    } else {
      WithoutOne(before, i, path);
    }
  }

  lemma ToggleEnd(was: seq<Modal>, now: seq<Modal>, path: string)
    requires Toggling(was, now, path) && FindModalIndex(was, path) != -1 && FindModalIndex(now, path) == -1
    ensures path != "" ==> now == Without(was, path)
    ensures path == "" ==> now == was[..FindModalIndex(was, path)]
  {
    WithoutNone(now, path);
    if path == "" { GoneFrom(was, |now|, path); }
  }

  lemma GoneFrom(stack: seq<Modal>, n: nat, path: string)
    requires n <= |stack| && FindModalIndex(stack, path) >= 0
    ensures n > FindModalIndex(stack, path) ==> FindModalIndex(stack[..n], path) != -1
  {
    var first := FindModalIndex(stack, path);
    if n > first { assert stack[..n][first] == stack[first]; }
  }

  lemma {:induction false} WithoutOne(stack: seq<Modal>, i: nat, path: string)
    requires i < |stack| && SameModalPath(stack[i].path, path)
    ensures Without(stack[..i] + stack[i + 1..], path) == Without(stack, path)
  {
    var rest := stack[..i] + stack[i + 1..];
    if i == 0 {
      assert rest == stack[1..];
    } else {
      assert rest[0] == stack[0] && rest[1..] == stack[1..][..i - 1] + stack[1..][i..];
      WithoutOne(stack[1..], i - 1, path);
    }
  }

  lemma {:induction false} WithoutNone(stack: seq<Modal>, path: string)
    requires forall m :: m in stack ==> !SameModalPath(m.path, path)
    ensures Without(stack, path) == stack
  {
    if stack != [] { WithoutNone(stack[1..], path); }
  }

  /** `Without` keeps exactly the modals of other paths. */
  lemma {:induction false} WithoutMembers(stack: seq<Modal>, path: string)
    ensures forall m :: m in Without(stack, path) <==> m in stack && LStrip(m.path) != LStrip(path)
  {
    if stack != [] { WithoutMembers(stack[1..], path); }
  }

  /** The saved session lists the restorable modals. */
  lemma {:induction false} SnapshotMembers(stack: seq<Modal>)
    ensures forall p :: p in Snapshot(stack) <==> exists i :: 0 <= i < |stack| && stack[i].restorable && stack[i].path == p
  {
    if stack != [] {
      SnapshotMembers(stack[1..]);
      assert forall i :: 1 <= i < |stack| ==> stack[i] == stack[1..][i - 1];
      forall p | p in Snapshot(stack[1..]) ensures exists i :: 0 <= i < |stack| && stack[i].restorable && stack[i].path == p {
        var i :| 0 <= i < |stack[1..]| && stack[1..][i].restorable && stack[1..][i].path == p;
        assert stack[i + 1].restorable && stack[i + 1].path == p;
      }
    }
  }

  /** Toggling the empty path closes exactly the modals of that path if and only if no other modal lies
      above the first of them. */
  lemma EmptyPathToggle(stack: seq<Modal>)
    requires FindModalIndex(stack, "") >= 0
    ensures var first := FindModalIndex(stack, "");
      stack[..first] == Without(stack, "") <==> forall i :: first <= i < |stack| ==> LStrip(stack[i].path) == LStrip("")
  {
    var first := FindModalIndex(stack, "");
    WithoutFrom(stack, first, "");
    var kept := Without(stack[first..], "");
    hide Without, FindModalIndex, LStrip, SameModalPath;
    if kept == [] {
      forall i | first <= i < |stack| ensures LStrip(stack[i].path) == LStrip("") {
        assert stack[i] == stack[first..][i - first];
      }
    } else {
      assert kept[0] in stack[first..];
    }
  }

  /** Up to its first modal of that path nothing of the stack goes, and behind it what is left is of other paths. */
  lemma WithoutFrom(stack: seq<Modal>, first: nat, path: string)
    requires first == FindModalIndex(stack, path)
    ensures var kept := Without(stack[first..], path);
      && (Without(stack, path) == stack[..first] <==> kept == [])
      && forall m :: m in kept <==> m in stack[first..] && LStrip(m.path) != LStrip(path)
  {
    hide Without, LStrip;
    WithoutAppend(stack[..first], stack[first..], path);
    assert stack == stack[..first] + stack[first..];
    WithoutNone(stack[..first], path);
    WithoutMembers(stack[first..], path);
    var kept := Without(stack[first..], path);
    assert kept == [] <==> stack[..first] + kept == stack[..first];
  }

  lemma {:induction false} WithoutAppend(a: seq<Modal>, b: seq<Modal>, path: string)
    ensures Without(a + b, path) == Without(a, path) + Without(b, path)
  {
    if a == [] {
      assert a + b == b;
    } else {
      assert (a + b)[1..] == a[1..] + b;
      WithoutAppend(a[1..], b, path);
    }
  }
}
