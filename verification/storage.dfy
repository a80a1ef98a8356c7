/** StorageModel: the list of saves, upserted by file name. */
module StorageModel {
  import opened Wrappers
  import opened SaveModel

  /** The saves and the counter the source keeps beside the list. */
  datatype Storage = Storage(saves: seq<Save>, count: int)

  /** `init()`: no saves and a zero counter. */
  function Empty(): (st: Storage)
    ensures st.saves == [] && st.count == 0
  {
    Storage([], 0)
  }

  /** Index of the first save named `name`, if any. */
  function IndexOfName(saves: seq<Save>, name: string): (r: Option<nat>)
    ensures r.Some? ==> r.value < |saves| && saves[r.value].fileName == name
    ensures r.Some? ==> forall j :: 0 <= j < r.value ==> saves[j].fileName != name
    ensures r.None? <==> forall j :: 0 <= j < |saves| ==> saves[j].fileName != name
    decreases |saves|
  {
    if |saves| == 0 then None
    else if saves[0].fileName == name then Some(0)
    else
      match IndexOfName(saves[1..], name)
      case None => None
      case Some(i) => Some(i + 1)
  }

  /** `get(withFileName:)`: the first save with that name, or nil when none has it. */
  function GetWithFileName(st: Storage, name: string): (r: Option<Save>)
    ensures r.None? <==> forall j :: 0 <= j < |st.saves| ==> st.saves[j].fileName != name
    ensures r.Some? ==> exists i :: 0 <= i < |st.saves| && st.saves[i] == r.value && r.value.fileName == name &&
                                    forall j :: 0 <= j < i ==> st.saves[j].fileName != name
  {
    match IndexOfName(st.saves, name)
    case None => None
    case Some(i) => Some(st.saves[i])
  }

  /**
   * `save(save:)`: a save under a new name is appended and counted; one under a name already
   * stored overwrites the first such entry in place, leaving the list length and counter alone.
   */
  function SaveTo(st: Storage, s: Save): (r: (Storage, seq<Save>))
    ensures r.1 == r.0.saves
    ensures GetWithFileName(st, s.fileName).None? ==>
              r.0.saves == st.saves + [s] && r.0.count == st.count + 1
    ensures GetWithFileName(st, s.fileName).Some? ==>
              && r.0.count == st.count
              && |r.0.saves| == |st.saves|
              && exists i :: 0 <= i < |st.saves| && st.saves[i].fileName == s.fileName &&
                   (forall j :: 0 <= j < i ==> st.saves[j].fileName != s.fileName) &&
                   r.0.saves == st.saves[i := Overwrite(st.saves[i], s.thumbnail, s.screenshots, s.drawing, s.saveDate)]
  {
    match IndexOfName(st.saves, s.fileName)
    case None =>
      var st' := Storage(st.saves + [s], st.count + 1);
      (st', st'.saves)
    case Some(i) =>
      var stored := st.saves[i];
      var st' := st.(saves := st.saves[i := Overwrite(stored, s.thumbnail, s.screenshots, s.drawing, s.saveDate)]);
      (st', st'.saves)
  }

  /** No two saves share a file name. */
  predicate DistinctNames(saves: seq<Save>) {
    forall i, j :: 0 <= i < j < |saves| ==> saves[i].fileName != saves[j].fileName
  }

  /** Saving keeps file names pairwise distinct. */
  lemma SaveKeepsNamesDistinct(st: Storage, s: Save)
    requires DistinctNames(st.saves)
    ensures DistinctNames(SaveTo(st, s).0.saves)
  {
    var r := SaveTo(st, s).0;
    if IndexOfName(st.saves, s.fileName).None? {
      assert forall j :: 0 <= j < |st.saves| ==> st.saves[j].fileName != s.fileName;
    } else {
      var i := IndexOfName(st.saves, s.fileName).value;
      assert forall j :: 0 <= j < |r.saves| ==> r.saves[j].fileName == st.saves[j].fileName;
    }
  }

  /** Saves one after another, starting from `st`. */
  function SaveAll(st: Storage, ss: seq<Save>): Storage
    decreases |ss|
  {
    if |ss| == 0 then st else SaveAll(SaveTo(st, ss[0]).0, ss[1..])
  }

  /** From an empty storage, any sequence of saves leaves the file names pairwise distinct. */
  lemma {:induction false} SaveAllDistinct(st: Storage, ss: seq<Save>)
    requires DistinctNames(st.saves)
    ensures DistinctNames(SaveAll(st, ss).saves)
    decreases |ss|
  {
    if |ss| > 0 {
      SaveKeepsNamesDistinct(st, ss[0]);
      SaveAllDistinct(SaveTo(st, ss[0]).0, ss[1..]);
    }
  }

  /** `removeAtIndex(index:)`: guarded only by the counter; past the guard the index must be inside the list. */
  function RemoveAtIndex(st: Storage, i: int): (r: (Storage, Option<Save>))
    requires st.count > 0 ==> 0 <= i < |st.saves|
    ensures st.count <= 0 ==> r == (st, None)
    ensures st.count > 0 ==>
              && r.1 == Some(st.saves[i])
              && r.0.saves == st.saves[..i] + st.saves[i + 1..]
              && r.0.count == st.count - 1
  {
    if st.count > 0 then
      (Storage(st.saves[..i] + st.saves[i + 1..], st.count - 1), Some(st.saves[i]))
    else
      (st, None)
  }

  /**
   * `remove(save:)`, with the search bounded by the list: removes the first entry named like
   * `save` (subject to the counter guard), and returns nil when no entry has that name.
   */
  function Remove(st: Storage, save: Save): (r: (Storage, Option<Save>))
    ensures GetWithFileName(st, save.fileName).None? ==> r == (st, None)
    ensures st.count <= 0 ==> r == (st, None)
    ensures GetWithFileName(st, save.fileName).Some? && st.count > 0 ==>
              && r.0.count == st.count - 1
              && exists i :: 0 <= i < |st.saves| && st.saves[i].fileName == save.fileName &&
                   (forall j :: 0 <= j < i ==> st.saves[j].fileName != save.fileName) &&
                   r.1 == Some(st.saves[i]) && r.0.saves == st.saves[..i] + st.saves[i + 1..]
  {
    match IndexOfName(st.saves, save.fileName)
    case None => (st, None)
    case Some(i) => RemoveAtIndex(st, i)
  }

  /** Outcome of the scan `remove(save:)` performs as written. */
  datatype Removal = Removed(storage: Storage, save: Option<Save>) | IndexOutOfRange(index: int)

  /**
   * The scan of `remove(save:)` as written: it visits indices `0...saves.count`, one past the end,
   * so reaching the end without a match reads out of range.
   */
  function RemoveScan(st: Storage, save: Save, i: nat): (r: Removal)
    requires i <= |st.saves|
    requires forall j :: 0 <= j < i ==> st.saves[j].fileName != save.fileName
    ensures r.IndexOutOfRange? <==> GetWithFileName(st, save.fileName).None?
    ensures r.IndexOutOfRange? ==> r.index == |st.saves|
    ensures r.Removed? ==> r == Removed(Remove(st, save).0, Remove(st, save).1)
    decreases |st.saves| - i
  {
    if i == |st.saves| then IndexOutOfRange(i)
    else if st.saves[i].fileName == save.fileName then
      var (st', removed) := RemoveAtIndex(st, i);
      Removed(st', removed)
    else
      RemoveScan(st, save, i + 1)
  }

  /** `remove(save:)` exactly as written. */
  function RemoveAsWritten(st: Storage, save: Save): (r: Removal)
    ensures r.IndexOutOfRange? <==> GetWithFileName(st, save.fileName).None?
    ensures r.Removed? ==> r == Removed(Remove(st, save).0, Remove(st, save).1)
  {
    RemoveScan(st, save, 0)
  }

  /** Removing from an empty storage as written reads index 0 of an empty list. */
  lemma RemoveAsWrittenFromEmpty(save: Save)
    ensures RemoveAsWritten(Empty(), save) == IndexOutOfRange(0)
    ensures Remove(Empty(), save) == (Empty(), None)
  {
  }

  /** `pop()`: when the counter is positive, drops the last save if the list has one, and decrements the counter either way. */
  function Pop(st: Storage): (r: (Storage, Option<Save>))
    ensures st.count <= 0 ==> r == (st, None)
    ensures st.count > 0 ==> r.0.count == st.count - 1
    ensures st.count > 0 && |st.saves| > 0 ==>
              r.1 == Some(st.saves[|st.saves| - 1]) && r.0.saves + [r.1.value] == st.saves
    ensures st.count > 0 && |st.saves| == 0 ==> r.1 == None && r.0.saves == []
  {
    if st.count > 0 then
      if |st.saves| > 0 then
        (Storage(st.saves[..|st.saves| - 1], st.count - 1), Some(st.saves[|st.saves| - 1]))
      else
        (st.(count := st.count - 1), None)
    else
      (st, None)
  }

  /** `clear()`: returns the saves and empties the list; the counter is left as it was. */
  function Clear(st: Storage): (r: (Storage, seq<Save>))
    ensures r.1 == st.saves && r.0.saves == [] && r.0.count == st.count
  {
    (st.(saves := []), st.saves)
  }

  /** `get(atIndex:)`: the save when the counter exceeds the index; the list must hold every index the guard admits. */
  function GetAtIndex(st: Storage, i: int): (r: Option<Save>)
    requires st.count > i ==> 0 <= i < |st.saves|
    ensures r.Some? <==> i < st.count
    ensures r.Some? ==> r.value == st.saves[i]
  {
    if st.count > i then Some(st.saves[i]) else None
  }

  /**
   * After a save, looking its file name up finds an entry with that name, which is the save itself
   * when the name was new; with an exact counter the new save is also at the old counter's index.
   */
  lemma GetAfterSave(st: Storage, s: Save)
    ensures GetWithFileName(SaveTo(st, s).0, s.fileName).Some?
    ensures GetWithFileName(SaveTo(st, s).0, s.fileName).value.fileName == s.fileName
    ensures GetWithFileName(st, s.fileName).None? ==> GetWithFileName(SaveTo(st, s).0, s.fileName) == Some(s)
    ensures GetWithFileName(st, s.fileName).None? && st.count == |st.saves| ==>
              GetAtIndex(SaveTo(st, s).0, st.count) == Some(s)
  {
    var after := SaveTo(st, s).0;
    if GetWithFileName(st, s.fileName).None? {
      assert after.saves[|st.saves|] == s;
    } else {
      var i :| 0 <= i < |st.saves| && st.saves[i].fileName == s.fileName &&
               (forall j :: 0 <= j < i ==> st.saves[j].fileName != s.fileName) &&
               after.saves == st.saves[i := Overwrite(st.saves[i], s.thumbnail, s.screenshots, s.drawing, s.saveDate)];
      assert after.saves[i].fileName == s.fileName;
    }
  }

  /** The counter never falls below the list length (it only overshoots, after `clear`). */
  predicate CountCovers(st: Storage) {
    st.count >= |st.saves|
  }

  /** The storage operations a caller can perform. */
  datatype Op = SaveOp(s: Save) | RemoveOp(s: Save) | RemoveAtOp(i: nat) | PopOp | ClearOp

  /** One operation; removals the source would trap on are skipped. */
  function Apply(st: Storage, op: Op): Storage {
    match op
    case SaveOp(s) => SaveTo(st, s).0
    case RemoveOp(s) => Remove(st, s).0
    case RemoveAtOp(i) => if st.count > 0 ==> i < |st.saves| then RemoveAtIndex(st, i).0 else st
    case PopOp => Pop(st).0
    case ClearOp => Clear(st).0
  }

  function Run(st: Storage, ops: seq<Op>): Storage
    decreases |ops|
  {
    if |ops| == 0 then st else Run(Apply(st, ops[0]), ops[1..])
  }

  /** Every operation keeps the counter at or above the list length. */
  lemma {:induction false} RunKeepsCountCovering(st: Storage, ops: seq<Op>)
    requires CountCovers(st)
    ensures CountCovers(Run(st, ops))
    decreases |ops|
  {
    if |ops| > 0 {
      RunKeepsCountCovering(Apply(st, ops[0]), ops[1..]);
    }
  }

  /** After `clear`, the `get(atIndex:)` guard is stale: it admits index 0 of an empty list. */
  lemma ClearLeavesStaleGuard(s: Save)
    ensures var st := Clear(SaveTo(Empty(), s).0).0;
            st.count > 0 && st.saves == []
  {
  }
}
