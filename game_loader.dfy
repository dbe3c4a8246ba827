/*
 * The stub game loader (src/game_loader/mod.rs): a fixed keyword table from
 * the player's input to a reply. It holds no state, so it is a function.
 */
module GameLoader {

  /** The reply to "look", one sentence per piece. */
  const LookReply: string :=
    "You are in a dark room." + " There is a door to the north." + " There are large windows to the south."
    + " There is a door to the east." + " There is a door to the west." + " There is a door to the up."
    + " There is a door to the down." + " There is a door to the northeast." + " There is a door to the northwest."

  const DefaultReply: string := "I don't understand."

  /** The inputs answered with "You go <direction>." */
  const Directions: seq<string> := ["north", "south", "east", "west"]

  /** `process_input`: exact, case-sensitive matching against the keywords. */
  function ProcessInput(input: string): (reply: string)
    ensures input == "look" ==> reply == LookReply
    ensures input in Directions ==> reply == "You go " + input + "."
    ensures input != "look" && input !in Directions ==> reply == DefaultReply
  {
    if input == "look" then LookReply
    else if input == "north" then "You go north."
    else if input == "south" then "You go south."
    else if input == "east" then "You go east."
    else if input == "west" then "You go west."
    else DefaultReply
  }

  /** The input is understood exactly when it is one of the five keywords. */
  lemma UnderstoodIffKeyword(input: string)
    ensures ProcessInput(input) != DefaultReply <==> input == "look" || input in Directions
  {
    if input == "look" {
      assert LookReply[0] == 'Y';
      assert DefaultReply[0] == 'I';
    } else if input in Directions {
      assert ProcessInput(input)[0] == 'Y' != DefaultReply[0];
    }
  }

  /** Different directions get different replies, and none of them is the look reply. */
  lemma DirectionRepliesDistinct(a: string, b: string)
    requires a in Directions && b in Directions
    ensures ProcessInput(a) == ProcessInput(b) ==> a == b
    ensures ProcessInput(a) != LookReply
  {
    var ra := ProcessInput(a);
    if ra == ProcessInput(b) {
      assert ra[7..|ra| - 1] == a;
      assert ProcessInput(b)[7..|ProcessInput(b)| - 1] == b;
    }
    assert |ra| < |LookReply|;
  }

  /** No trimming and no case folding: near-misses of a keyword are not understood. */
  lemma MatchingIsExact()
    ensures ProcessInput("North") == DefaultReply
    ensures ProcessInput(" look") == DefaultReply
    ensures ProcessInput("look ") == DefaultReply
  {
  }
}
