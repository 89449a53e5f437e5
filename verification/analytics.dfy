/** The streak badge reported to analytics. */
module Analytics {

  /** getEmojiLevelForStreak. */
  function EmojiLevelForStreak(streakLength: int): (level: string)
  {
    if streakLength >= 14 then "triple_fire"
    else if streakLength >= 8 then "fire"
    else if streakLength >= 5 then "musical_notes"
    else if streakLength >= 3 then "musical_note"
    else "none"
  }

  /** The position of a level in the progression none < note < notes < fire < triple fire. */
  function LevelRank(level: string): (k: int)
  {
    if level == "musical_note" then 1
    else if level == "musical_notes" then 2
    else if level == "fire" then 3
    else if level == "triple_fire" then 4
    else 0
  }

  /**
   * The level of a streak is the number of thresholds 3, 5, 8 and 14 it
   * reaches, so a longer streak never shows a lower level.
   */
  lemma EmojiLevelThresholds(n: int, m: int)
    ensures LevelRank(EmojiLevelForStreak(n))
         == (if n >= 3 then 1 else 0) + (if n >= 5 then 1 else 0) + (if n >= 8 then 1 else 0) + (if n >= 14 then 1 else 0)
    ensures n <= m ==> LevelRank(EmojiLevelForStreak(n)) <= LevelRank(EmojiLevelForStreak(m))
  {
  }
}
