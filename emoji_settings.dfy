/**
 * The emoji palette editor (components/EmojiSettingsModal.tsx): editing one
 * palette entry with a fallback to the built-in emoji, and choosing the
 * random-avatar category.
 */
module EmojiSettings {
  import opened Orders
  import opened Text
  import opened Settings

  /** What an edit stores at index `idx`: the trimmed input, or the built-in emoji when it is blank. */
  function FinalEmoji(idx: nat, input: string): (r: string)
    requires idx < |DEFAULT_EMOJIS|
    ensures Trim(input) != "" ==> r == Trim(input)
    ensures Trim(input) == "" ==> r == DEFAULT_EMOJIS[idx]
  {
    var t := Trim(input);
    if t != "" then t else DEFAULT_EMOJIS[idx]
  }

  /**
   * `handleUpdateEmoji`: copy the palette, write one index, hand the new
   * settings back and clear the editing index.
   */
  method UpdateEmoji(settings: AppSettings, idx: nat, input: string)
      returns (updated: AppSettings, editingIdx: Option<nat>)
    requires idx < |settings.defaultEmojis| && idx < |DEFAULT_EMOJIS|
    ensures |updated.defaultEmojis| == |settings.defaultEmojis|
    ensures updated.defaultEmojis[idx] == FinalEmoji(idx, input)
    ensures forall i :: 0 <= i < |settings.defaultEmojis| && i != idx ==>
      updated.defaultEmojis[i] == settings.defaultEmojis[i]
    ensures updated == settings.(defaultEmojis := updated.defaultEmojis)
    ensures editingIdx == None
  {
    var palette := settings.defaultEmojis;
    var copy := new string[|palette|](i requires 0 <= i < |palette| => palette[i]);
    copy[idx] := FinalEmoji(idx, input);
    updated := settings.(defaultEmojis := copy[..]);
    editingIdx := None;
  }

  /** The category buttons: only `randomCategory` changes. */
  function ChooseCategory(settings: AppSettings, category: string): (r: AppSettings)
    ensures r.randomCategory == category
    ensures r.(randomCategory := settings.randomCategory) == settings
  {
    settings.(randomCategory := category)
  }
}
