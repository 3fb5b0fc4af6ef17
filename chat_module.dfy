/** The chat module of experiments/adventure-app/modules.py: the same kind
    of seeded stream, grown by two messages on every click of the update
    button, the second one a placeholder built from the start of the input. */
module ChatModule {
  import opened Text
  import opened Messages

  /** The game's rules, sent as the system message. */
  const SystemMsg: string :=
    "\n"
    + "You are the guide of a 'choose your own adventure'-style game: a mystical\n"
    + "journey through the Amazon Rainforest. Your job is to create compelling\n"
    + "outcomes that correspond with the player's choices. You must navigate the\n"
    + "player through challenges, providing choices, and consequences, dynamically\n"
    + "adapting the tale based on the traveller's inputs. Your goal is to create a\n"
    + "branching narrative experience where each of the traveller's choices leads to a\n"
    + "new path, ultimately determining the traveller's fate. The player's goal is to\n"
    + "find the lost crown of Quetzalcoatl.\n"
    + "\n"
    + "Here are some rules to follow:\n"
    + "1. Always wait for the traveller to respond with their input before making any\n"
    + "choices. Never provide the player's input yourself. This is most important.\n"
    + "2. Ask the player to provide a name, gender and race.\n"
    + "3. Ask the player to choose some weapons that will be used later in the game.\n"
    + "4. Have a few paths that lead to success. \n"
    + "5. Have some paths that lead to death.\n"
    + "6. Whether or not the game results in success or death, the response must\n"
    + "include the text \"The End...\", I will search for this text to end the game."

  /** The welcome text, the first assistant message. */
  const WelcomeMsg: string :=
    "\n"
    + "Welcome to the Amazon Rainforest, adventurer! Your mission is to find the lost\n"
    + "crown of Quetzalcoatl. However, many challenges stand in your way. Are you\n"
    + "brave enough, strong enough and clever enough to overcome the perils of the\n"
    + "jungle and secure the crown?\n"
    + "\n"
    + "Before we begin our journey, choose your name, gender and race. Select from the\n"
    + "following weapons: A broadsword, a flintlock pistol or thowing daggers.\n"
    + "\n"

  const InitialStream: seq<Message> :=
    [Message(System, SystemMsg), Message(Assistant, WelcomeMsg)]

  /** The text before the quoted input in a placeholder reply. */
  const PlaceholderHead: string := "model response to ("

  /** How many characters of the input the placeholder quotes. */
  const QuotedLength: nat := 5

  /** The stand-in for a model reply: the fixed head, then the first five
      characters of the input (all of it when it is shorter), then ")". */
  function ResponsePlaceholder(usrInput: string): (r: string)
    ensures PlaceholderHead <= r && r[|r| - 1] == ')'
    ensures |r| == |PlaceholderHead| + (if |usrInput| < QuotedLength then |usrInput| else QuotedLength) + 1
    ensures r[|PlaceholderHead|..|r| - 1] <= usrInput
  {
    PlaceholderHead + Take(usrInput, QuotedLength) + ")"
  }

  /** An input shorter than five characters is quoted whole; a longer one is
      cut to its first five. */
  lemma PlaceholderQuotes(usrInput: string)
    ensures |usrInput| <= QuotedLength ==> ResponsePlaceholder(usrInput) == PlaceholderHead + usrInput + ")"
    ensures |usrInput| >= QuotedLength ==> ResponsePlaceholder(usrInput) == PlaceholderHead + usrInput[..QuotedLength] + ")"
  {
    var r := ResponsePlaceholder(usrInput);
    var q := r[|PlaceholderHead|..|r| - 1];
    assert r == PlaceholderHead + q + ")";
    if |usrInput| <= QuotedLength {
      assert q == usrInput;
    } else {
      assert q == usrInput[..QuotedLength];
    }
  }

  /** The stream as the module keeps it: the two seeded messages, then for
      every click a user turn and the placeholder reply to it. */
  predicate WellFormed(stream: seq<Message>) {
    && |stream| >= 2 && |stream| % 2 == 0
    && stream[..2] == InitialStream
    && Alternating(stream)
    && forall k :: 1 <= k < |stream| / 2 ==>
         stream[2 * k + 1].content == ResponsePlaceholder(stream[2 * k].content)
  }

  /** The rounds that a sequence of clicks with inputs `inputs` plays. */
  function Clicks(inputs: seq<string>): (rounds: seq<Exchange>)
    ensures |rounds| == |inputs|
    ensures forall k :: 0 <= k < |inputs| ==> rounds[k] == Exchange(inputs[k], ResponsePlaceholder(inputs[k]))
  {
    seq(|inputs|, k requires 0 <= k < |inputs| => Exchange(inputs[k], ResponsePlaceholder(inputs[k])))
  }

  /** After any sequence of clicks, the stream is the seeded pair followed by
      one user/placeholder pair per click, in click order, and is well formed. */
  lemma {:induction false} ClicksWellFormed(inputs: seq<string>)
    ensures WellFormed(InitialStream + Turns(Clicks(inputs)))
    ensures |InitialStream + Turns(Clicks(inputs))| == 2 + 2 * |inputs|
  {
    var s := InitialStream + Turns(Clicks(inputs));
    var t := Turns(Clicks(inputs));
    AlternatingTurns(InitialStream, Clicks(inputs));
    assert s[..2] == InitialStream;
    forall k | 1 <= k < |s| / 2
      ensures s[2 * k + 1].content == ResponsePlaceholder(s[2 * k].content)
    {
      assert s[2 * k] == t[2 * (k - 1)] && s[2 * k + 1] == t[2 * (k - 1) + 1];
    }
  }

  /** The module-level `stream` and the server's `messages()` event. */
  class ChatServer {
    var stream: seq<Message>
    /** The inputs of the clicks so far, in order. */
    ghost var inputs: seq<string>

    ghost predicate Valid()
      reads this
    {
      stream == InitialStream + Turns(Clicks(inputs))
    }

    /** The module-level initialisation: the rules, then the welcome. */
    constructor ()
      ensures Valid() && WellFormed(stream)
      ensures stream == [Message(System, SystemMsg), Message(Assistant, WelcomeMsg)]
    {
      stream := InitialStream;
      inputs := [];
      assert Turns(Clicks([])) == [];
    }

    /** One click of the update button with `usrInput` in the text area:
        the user turn, then the placeholder reply, appended; nothing before
        them changes. */
    method UpdateMessages(usrInput: string)
      requires Valid()
      modifies this
      ensures Valid() && WellFormed(stream)
      ensures inputs == old(inputs) + [usrInput]
      ensures stream == old(stream) + [Message(User, usrInput), Message(Assistant, ResponsePlaceholder(usrInput))]
    {
      stream := stream + [Message(User, usrInput)];
      stream := stream + [Message(Assistant, ResponsePlaceholder(usrInput))];
      ghost var round := Exchange(usrInput, ResponsePlaceholder(usrInput));
      assert Clicks(inputs + [usrInput]) == Clicks(inputs) + [round];
      TurnsAppend(Clicks(inputs), [round]);
      assert Turns([round]) == [Message(User, usrInput), Message(Assistant, ResponsePlaceholder(usrInput))];
      inputs := inputs + [usrInput];
      ClicksWellFormed(inputs);
    }
  }
}
