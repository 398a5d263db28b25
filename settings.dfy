/**
 * Application settings, their initial values, and the avatar emoji
 * categories the random avatar buttons draw from.
 */
module Settings {

  datatype AppSettings = AppSettings(
    showDrinkSize: bool,
    showSharedMenu: bool,
    quickMemos: seq<string>,
    defaultEmojis: seq<string>,
    randomCategory: string,
    checkedDrinkItems: seq<string>)

  /** The fifteen palette emojis; the last four are the seat markers. */
  const DEFAULT_EMOJIS: seq<string> :=
    ["👨🏻", "👩🏻", "👶🏻", "👦🏻", "👧🏻", "🧓🏻", "👵🏻", "🐶", "😺", "🐯", "🐷", "◰", "◱", "◳", "◲"]

  const INITIAL_DRINK_MENU: seq<string> := ["미정", "아메리카노", "카페라떼", "카라멜마끼아또", "복숭아 아이스티"]
  const INITIAL_DESSERT_MENU: seq<string> := ["케이크", "스콘", "크로와상", "마카롱"]

  function DefaultSettings(): (s: AppSettings)
    ensures s.defaultEmojis == DEFAULT_EMOJIS && !s.showDrinkSize && !s.showSharedMenu
  {
    AppSettings(
      false,
      false,
      ["연하게", "샷추가", "물 따로", "얼음물"],
      DEFAULT_EMOJIS,
      "ANIMALS",
      ["아메리카노", "카페라떼", "카라멜마끼아또"])
  }

  const ANIMALS: seq<string> :=
    ["🦁", "🐯", "🐨", "🦊", "🐷", "🐸", "🐵", "🐔", "🐧", "🐦", "🐥", "🦉", "🐺", "🦝", "🐴", "🦄", "🐝", "🦋", "🐙", "🦈"]
  const FACES: seq<string> :=
    ["😀", "😍", "😎", "🤔", "😴", "🤩", "🥳", "🥺", "😡", "🤢", "🤡", "👻", "👽", "🤖", "💩", "✨", "😇", "🤗", "😜", "🫡"]
  const HANDS: seq<string> :=
    ["👍🏻", "👎🏻", "👊🏻", "✌🏻", "👌🏻", "✋🏻", "👐🏻", "🙌🏻", "👏🏻", "🙏🏻", "🤝🏻", "🤘🏻", "🤙🏻", "👋🏻", "✍🏻", "💪🏻", "☝🏻", "🤞🏻", "🫶🏻", "🤟🏻"]
  const NUMBERS: seq<string> :=
    ["0️⃣", "1️⃣", "2️⃣", "3️⃣", "4️⃣", "5️⃣", "6️⃣", "7️⃣", "8️⃣", "9️⃣", "🔟", "💯", "🅰️", "🅱️", "🆗", "🆒"]

  /** `CATEGORY_EMOJIS[category] || CATEGORY_EMOJIS['ANIMALS']`. */
  function CategoryEmojis(category: string): (r: seq<string>)
    ensures |r| >= 16
    ensures category !in {"ANIMALS", "FACES", "HANDS", "NUMBERS"} ==> r == ANIMALS
  {
    if category == "FACES" then FACES
    else if category == "HANDS" then HANDS
    else if category == "NUMBERS" then NUMBERS
    else ANIMALS
  }

  /**
   * `emojis[Math.floor(Math.random() * emojis.length)]`, with the random
   * draw's index as the parameter `roll`.
   */
  function RandomAvatar(category: string, roll: nat): (r: string)
    requires roll < |CategoryEmojis(category)|
    ensures r in CategoryEmojis(category)
    ensures r != ""
  {
    var list := CategoryEmojis(category);
    NoBlankEmoji(category);
    list[roll]
  }

  /** No emoji list holds an empty string. */
  lemma NoBlankEmoji(category: string)
    ensures forall k :: 0 <= k < |CategoryEmojis(category)| ==> CategoryEmojis(category)[k] != ""
  {
    if category == "FACES" {
      assert forall k :: 0 <= k < |FACES| ==> FACES[k] != "";
    } else if category == "HANDS" {
      assert forall k :: 0 <= k < |HANDS| ==> HANDS[k] != "";
    } else if category == "NUMBERS" {
      assert forall k :: 0 <= k < |NUMBERS| ==> NUMBERS[k] != "";
    } else {
      assert forall k :: 0 <= k < |ANIMALS| ==> ANIMALS[k] != "";
    }
  }
}
