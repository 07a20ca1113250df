/** `Character` of `warcraftlogs/api.py`: a ranked player and its class label. */
module Characters {
  import opened Json
  import opened PyStr
  import opened Constants
  import opened Payload

  /** The label prefix for a class id that `CLASS_NAME` does not list. */
  const UnknownClassPrefix: string := "UNKNOWN CLASS ID: "

  /** `player_class_id` is -1 until a payload provides one; 0 is the id the
      upstream API reports for a class it could not determine. */
  datatype Character = Character(name: string, classId: int) {

    /** `player_class`: the table's label, or the fallback naming the id. */
    function PlayerClass(): (text: string)
      ensures (|text| > |UnknownClassPrefix| && text[..|UnknownClassPrefix|] == UnknownClassPrefix)
              <==> classId !in ClassName
    {
      if classId in ClassName then ClassName[classId]
      else UnknownClassPrefix + IntToString(classId)
    }
  }

  /** The class attributes a `Character` starts from. */
  const DefaultCharacter: Character := Character("", -1)

  /** `Character(api_obj)`: every key present overrides its default. */
  function CharacterFrom(obj: CharacterPayload): (c: Character)
    ensures obj.name.Absent? ==> c.name == ""
    ensures obj.classID.Absent? ==> c.classId == -1
    ensures obj.name.Present? ==> c.name == obj.name.value
    ensures obj.classID.Present? ==> c.classId == obj.classID.value
  {
    Character(obj.name.GetOr(DefaultCharacter.name), obj.classID.GetOr(DefaultCharacter.classId))
  }

  /** The payload that carries every field of `c`. */
  function CharacterPayloadOf(c: Character): CharacterPayload {
    CharacterPayload(Present(c.name), Present(c.classId))
  }

  /** Decoding a payload that carries both keys gives back the character. */
  lemma CharacterRoundTrip(c: Character)
    ensures CharacterFrom(CharacterPayloadOf(c)) == c
  {
  }

  /** Reads the class id back from a `player_class` label. */
  function ClassIdOfLabel(text: string): Option<int> {
    if text == "Unknown" then Some(0)
    else if text == "Paladin" then Some(1)
    else if text == "Druid" then Some(2)
    else if text == "Hunter" then Some(3)
    else if text == "Mage" then Some(4)
    else if text == "Priest" then Some(7)
    else if text == "Rogue" then Some(8)
    else if text == "Shaman" then Some(9)
    else if text == "Warlock" then Some(10)
    else if text == "Warrior" then Some(11)
    else if |text| >= |UnknownClassPrefix| && text[..|UnknownClassPrefix|] == UnknownClassPrefix then
      ParseInt(text[|UnknownClassPrefix|..])
    else None
  }

  /** Every label names exactly one class id: the one it was made from. */
  lemma PlayerClassReadBack(c: Character)
    ensures ClassIdOfLabel(c.PlayerClass()) == Some(c.classId)
  {
    if c.classId !in ClassName {
      var text := c.PlayerClass();
      assert text[..|UnknownClassPrefix|] == UnknownClassPrefix;
      assert text[|UnknownClassPrefix|..] == IntToString(c.classId);
      IntToStringRoundTrip(c.classId);
    }
  }

  /** Two characters with the same label have the same class id. */
  lemma PlayerClassInjective(a: Character, b: Character)
    requires a.PlayerClass() == b.PlayerClass()
    ensures a.classId == b.classId
  {
    PlayerClassReadBack(a);
    PlayerClassReadBack(b);
  }

  /** An id outside the table yields the fallback text followed by the id. */
  lemma PlayerClassFallback(c: Character)
    requires c.classId !in ClassName
    ensures |c.PlayerClass()| > |UnknownClassPrefix|
    ensures c.PlayerClass()[..|UnknownClassPrefix|] == UnknownClassPrefix
    ensures ParseInt(c.PlayerClass()[|UnknownClassPrefix|..]) == Some(c.classId)
  {
    var text := c.PlayerClass();
    assert text[|UnknownClassPrefix|..] == IntToString(c.classId);
    IntToStringRoundTrip(c.classId);
  }

  /** The table's gaps and the unset id fall back; 0 has a label of its own. */
  lemma PlayerClassExamples()
    ensures Character("", 0).PlayerClass() == "Unknown"
    ensures Character("", 4).PlayerClass() == "Mage"
    ensures Character("", 5).PlayerClass() == "UNKNOWN CLASS ID: 5"
    ensures Character("", 6).PlayerClass() == "UNKNOWN CLASS ID: 6"
    ensures Character("", -1).PlayerClass() == "UNKNOWN CLASS ID: -1"
  {
  }
}
