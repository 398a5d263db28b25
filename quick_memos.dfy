/**
 * The quick-memo editor of components/QuickMemosModal.tsx: each action
 * computes a new `quickMemos` list and hands back the settings with that
 * list and nothing else changed.
 */
module QuickMemos {
  import opened Orders
  import opened Text
  import opened Lists
  import opened Settings

  /** `handleAddMemo`: the trimmed value is appended unless it is blank or already listed. */
  function AddMemo(settings: AppSettings, newMemo: string): (r: AppSettings)
    ensures r == settings.(quickMemos := r.quickMemos)
    ensures Trim(newMemo) == "" || Trim(newMemo) in settings.quickMemos ==> r == settings
    ensures Trim(newMemo) != "" && Trim(newMemo) !in settings.quickMemos ==>
      r.quickMemos == settings.quickMemos + [Trim(newMemo)]
    ensures Trim(newMemo) != "" ==> Trim(newMemo) in r.quickMemos
    ensures NoDup(settings.quickMemos) ==> NoDup(r.quickMemos)
  {
    var v := Trim(newMemo);
    if v == "" || v in settings.quickMemos then settings
    else settings.(quickMemos := settings.quickMemos + [v])
  }

  /** `removeMemo`: every entry equal to the memo goes, the rest keep their order. */
  function RemoveMemo(settings: AppSettings, memo: string): (r: AppSettings)
    ensures r == settings.(quickMemos := RemoveAll(settings.quickMemos, memo))
    ensures memo !in r.quickMemos
    ensures forall m :: m in r.quickMemos <==> m in settings.quickMemos && m != memo
    ensures NoDup(settings.quickMemos) ==> NoDup(r.quickMemos)
  {
    RemoveAllMembers(settings.quickMemos, memo);
    var kept := RemoveAll(settings.quickMemos, memo);
    if NoDup(settings.quickMemos) then
      RemoveAllNoDup(settings.quickMemos, memo);
      settings.(quickMemos := kept)
    else settings.(quickMemos := kept)
  }

  /** `quickMemos.map(m => m === oldVal ? newVal : m)`. */
  function Renamed(s: seq<string>, oldVal: string, newVal: string): (r: seq<string>)
    ensures |r| == |s|
    ensures forall i :: 0 <= i < |s| ==> r[i] == if s[i] == oldVal then newVal else s[i]
  {
    seq(|s|, i requires 0 <= i < |s| => if s[i] == oldVal then newVal else s[i])
  }

  /**
   * `handleEditSave`: the entry keeps its place under the new text; an
   * empty text, or one another entry already has, changes nothing.
   */
  function EditSave(settings: AppSettings, oldVal: string, newVal: string): (r: AppSettings)
    ensures r == settings.(quickMemos := r.quickMemos)
    ensures newVal == "" || (newVal in settings.quickMemos && newVal != oldVal) ==> r == settings
    ensures newVal != "" && (newVal !in settings.quickMemos || newVal == oldVal) ==>
      r.quickMemos == Renamed(settings.quickMemos, oldVal, newVal)
  {
    if newVal == "" || (newVal in settings.quickMemos && newVal != oldVal) then settings
    else settings.(quickMemos := Renamed(settings.quickMemos, oldVal, newVal))
  }

  /** An edit never brings a duplicate into a duplicate-free list, and the old text is gone when renamed. */
  lemma EditSaveNoDup(settings: AppSettings, oldVal: string, newVal: string)
    requires NoDup(settings.quickMemos)
    ensures NoDup(EditSave(settings, oldVal, newVal).quickMemos)
    ensures var r := EditSave(settings, oldVal, newVal).quickMemos;
      newVal != "" && newVal !in settings.quickMemos && oldVal in settings.quickMemos ==>
        newVal in r && oldVal !in r
  {
    var s := settings.quickMemos;
    var r := EditSave(settings, oldVal, newVal).quickMemos;
    if newVal != "" && (newVal !in s || newVal == oldVal) {
      forall i, j | 0 <= i < j < |r| ensures r[i] != r[j] {
        if s[i] == oldVal && s[j] != oldVal {
          assert s[j] in s;
        } else if s[i] != oldVal && s[j] == oldVal {
          assert s[i] in s;
        }
      }
      if newVal !in s && oldVal in s {
        var k := IndexOf(s, oldVal);
        assert r[k] == newVal;
      }
    }
  }

  /** The row's own save: `None` cancels the edit, `Some(v)` saves `v`. */
  function RowSave(editVal: string, memo: string): (r: Option<string>)
    ensures r.None? <==> Trim(editVal) == "" || Trim(editVal) == memo
    ensures r.Some? ==> r.value == Trim(editVal) && r.value != "" && r.value != memo
  {
    var v := Trim(editVal);
    if v != "" && v != memo then Some(v) else None
  }

  /** `handleDragEnd` with the drop target, if there is one. */
  function DragEnd(settings: AppSettings, active: string, over: Option<string>): (r: AppSettings)
    requires active in settings.quickMemos
    requires over.Some? ==> over.value in settings.quickMemos
    ensures r == settings.(quickMemos := r.quickMemos)
    ensures over.None? || over.value == active ==> r == settings
    ensures |r.quickMemos| == |settings.quickMemos|
    ensures multiset(r.quickMemos) == multiset(settings.quickMemos)
    ensures over.Some? ==> r.quickMemos[IndexOf(settings.quickMemos, over.value)] == active
    ensures NoDup(settings.quickMemos) ==> NoDup(r.quickMemos)
  {
    if over.None? || over.value == active then settings
    else
      ReorderedSpec(settings.quickMemos, active, over.value);
      settings.(quickMemos := Reordered(settings.quickMemos, active, over.value))
  }
}
