/** The class-id table of `warcraftlogs/constants.py`. The rest of that file
    reads environment variables and holds URLs; it is not part of this model. */
module Constants {

  /** `CLASS_NAME`: the game's class ids with a label. Ids 5 and 6 are absent. */
  const ClassName: map<int, string> := map[
    0 := "Unknown",
    1 := "Paladin",
    2 := "Druid",
    3 := "Hunter",
    4 := "Mage",
    7 := "Priest",
    8 := "Rogue",
    9 := "Shaman",
    10 := "Warlock",
    11 := "Warrior"
  ]
}
