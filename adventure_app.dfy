/** The web chat game of experiments/adventure-app/app.py: a conversation
    stream seeded with the game's rules and a welcome message, grown by the
    submit callback, which ends the game when the model's reply contains
    "the end..." in any letter case. The completion API call becomes the
    `reply` parameter, which is either the model's text or the exception the
    call raised; `exit()` becomes the terminal `ended` state. */
module AdventureApp {
  import opened Text
  import opened Sequences
  import opened Messages

  /** The game's rules, sent as the system message. */
  const SystemMsg: string :=
    "\n"
    + "You are the guide of a 'choose your own adventure'- style game: a mystical\n"
    + "journey through the Amazon Rainforest. Your job is to create compelling\n"
    + "outcomes that correspond with the player's choices. You must navigate the\n"
    + "player through challenges, providing choices, and consequences, dynamically\n"
    + "adapting the tale based on the player's inputs. Your goal is to create a\n"
    + "branching narrative experience where each of the player's choices leads to a\n"
    + "new path, ultimately determining their fate. The player's goal is to find the\n"
    + "lost crown of Quetzalcoatl.\n"
    + "\n"
    + "Here are some rules to follow:\n"
    + "1. Always wait for the player to respond with their input before providing any\n"
    + "choices. Never provide the player's input yourself. This is most important.\n"
    + "2. Ask the player to provide a name, gender and race.\n"
    + "3. Ask the player to choose from a selection of weapons that will be used later\n"
    + "in the game.\n"
    + "4. Have a few paths that lead to success. \n"
    + "5. Have some paths that lead to death.\n"
    + "6. Whether or not the game results in success or death, the response must\n"
    + "include the text \"The End...\", I will search for this text to end the game."

  /** The welcome text, the first assistant message. */
  const WelcomeMsg: string :=
    "\n"
    + "Welcome to the Amazon Rainforest, adventurer! Your mission is to find the lost\n"
    + "Crown of Quetzalcoatl:\n\n"
    + "<div style=\"display: grid; place-items: center;\"><img src=\"https://i.imgur.com/Fxa7p1D.jpeg\" width=60%/></div>\n\n"
    + "However, many challenges stand in your way. Are you brave enough, strong enough\n"
    + "and clever enough to overcome the perils of the jungle and secure the crown?\n"
    + "\n"
    + "Before we begin our journey, choose your name, gender and race. Choose a weapon\n"
    + "to bring with you. Choose wisely, as the way ahead is filled with many dangers.\n"
    + "\n"

  /** The stop phrase, searched for in the lower-cased reply. */
  const EndMarker: string := "the end..."

  /** Shown in the chat widget (never put in the stream) when the game ends. */
  const GameOverText: string := "Game Over! Refresh the page to play again."

  const InitialStream: seq<Message> :=
    [Message(System, SystemMsg), Message(Assistant, WelcomeMsg)]

  /** The callback's test `"the end..." in model_response.lower()`: some
      stretch of the reply spells the stop phrase, in any mix of letter
      cases. */
  function EndsGame(reply: string): (b: bool)
    ensures b <==> exists i: nat :: OccursLoweredAt(reply, EndMarker, i)
  {
    ContainsLoweredWindow(reply, EndMarker);
    Contains(Lower(reply), EndMarker)
  }

  /** Every capitalisation of the stop phrase ends the game. */
  lemma AnyCaseEnds(reply: string, phrase: string)
    requires Lower(phrase) == EndMarker && Contains(reply, phrase)
    ensures EndsGame(reply)
  {
    ContainsLower(reply, phrase);
  }

  /** What the completion call gives the callback: the model's text, or an
      exception (an empty or wrong API key, a network or quota error), which
      nothing in the callback catches. */
  datatype Reply = Replied(text: string) | CallFailed

  /** One submission: the player's text and what the completion call gave. */
  datatype Attempt = Attempt(user: string, reply: Reply)

  predicate EndsWith(reply: Reply) {
    reply.Replied? && EndsGame(reply.text)
  }

  predicate EndsAttempt(a: Attempt) {
    EndsWith(a.reply)
  }

  /** The conversation state of one game: the stream and whether the game
      has ended. */
  datatype State = State(stream: seq<Message>, ended: bool)

  /** The stream starts with the rules and the welcome message and holds no
      other system message; every assistant turn after them answers the user
      turn just before it; and an ended game's stream ends with the user turn
      whose answer ended it. (A failed call leaves a user turn without an
      answer, so user turns need not alternate with assistant turns.) */
  predicate WellFormed(st: State) {
    && |st.stream| >= 2 && st.stream[..2] == InitialStream
    && (forall i :: 2 <= i < |st.stream| ==> st.stream[i].role != System)
    && (forall i :: 2 <= i < |st.stream| && st.stream[i].role == Assistant ==> st.stream[i - 1].role == User)
    && (st.ended ==> |st.stream| > 2 && st.stream[|st.stream| - 1].role == User)
  }

  /** The state at start-up: the two seeded messages, game not ended. */
  function Initial(): (st: State)
    ensures WellFormed(st) && !st.ended && |st.stream| == 2
    ensures st.stream[0].role == System && st.stream[0].content == SystemMsg
    ensures st.stream[1].role == Assistant && st.stream[1].content == WelcomeMsg
  {
    State(InitialStream, false)
  }

  /** One submission with the player's text `user`: nothing happens once the
      game has ended; otherwise the user turn is appended before the call,
      and the reply after it unless the call failed or the reply ends the
      game. */
  function Step(st: State, user: string, reply: Reply): (r: State)
    ensures st.ended ==> r == st
    ensures !st.ended ==> st.stream < r.stream && r.stream[|st.stream|] == Message(User, user)
    ensures !st.ended ==> r.ended == EndsWith(reply)
    ensures !st.ended ==> |r.stream| == |st.stream| + (if reply.Replied? && !EndsWith(reply) then 2 else 1)
    ensures !st.ended && reply.Replied? && !EndsWith(reply) ==> r.stream[|r.stream| - 1] == Message(Assistant, reply.text)
  {
    if st.ended then st
    else
      var withUser := st.stream + [Message(User, user)];
      match reply
      case CallFailed => State(withUser, false)
      case Replied(text) =>
        if EndsGame(text) then State(withUser, true)
        else State(withUser + [Message(Assistant, text)], false)
  }

  /** A submission keeps the stream well formed: the system message stays
      first and alone, and every assistant turn answers a user turn. */
  lemma StepWellFormed(st: State, user: string, reply: Reply)
    requires WellFormed(st)
    ensures WellFormed(Step(st, user, reply))
  {
  }

  /** A failed call keeps the user's turn and leaves the game running, so
      the next submission puts two user turns in a row. */
  lemma FailedCallRepeatsUserTurn(first: string, second: string, reply: Reply)
    ensures !Step(Initial(), first, CallFailed).ended
    ensures var st := Step(Step(Initial(), first, CallFailed), second, reply);
      st.stream[2] == Message(User, first) && st.stream[3] == Message(User, second)
      && !Alternating(st.stream)
  {
  }

  /** The messages a submission that does not end the game leaves in the
      stream: the user turn, then the reply if the call returned one. */
  function Added(a: Attempt): seq<Message> {
    [Message(User, a.user)] + (if a.reply.Replied? then [Message(Assistant, a.reply.text)] else [])
  }

  /** The messages of several such submissions, in order. */
  function AddedAll(attempts: seq<Attempt>): seq<Message>
    decreases |attempts|
  {
    if attempts == [] then [] else Added(attempts[0]) + AddedAll(attempts[1..])
  }

  /** A game played through a sequence of submissions. */
  function Run(st: State, attempts: seq<Attempt>): State
    decreases |attempts|
  {
    if attempts == [] then st
    else Run(Step(st, attempts[0].user, attempts[0].reply), attempts[1..])
  }

  /** Once ended, the game ignores every further submission. */
  lemma {:induction false} RunEnded(st: State, attempts: seq<Attempt>)
    requires st.ended
    ensures Run(st, attempts) == st
    decreases |attempts|
  {
    if attempts != [] {
      RunEnded(st, attempts[1..]);
    }
  }

  /** A running game played through `attempts` ends exactly at the first
      submission whose call returned a reply containing the stop phrase: the
      submissions before it leave their user turns and, where the call
      returned, their replies; of the ending one only the user's turn is
      added. Nothing already in the stream changes. */
  lemma {:induction false} RunStopsAtFirstEnd(st: State, attempts: seq<Attempt>)
    requires !st.ended
    ensures var k := FirstWhere(attempts, EndsAttempt);
      Run(st, attempts).ended == (k < |attempts|)
      && Run(st, attempts).stream
         == st.stream + AddedAll(attempts[..k]) + (if k < |attempts| then [Message(User, attempts[k].user)] else [])
    decreases |attempts|
  {
    var k := FirstWhere(attempts, EndsAttempt);
    if attempts == [] {
      assert attempts[..k] == [];
    } else if EndsAttempt(attempts[0]) {
      var next := Step(st, attempts[0].user, attempts[0].reply);
      RunEnded(next, attempts[1..]);
      assert k == 0 && attempts[..k] == [];
    } else {
      var added := Added(attempts[0]);
      var next := Step(st, attempts[0].user, attempts[0].reply);
      assert next == State(st.stream + added, false);
      RunStopsAtFirstEnd(next, attempts[1..]);
      var k' := FirstWhere(attempts[1..], EndsAttempt);
      assert k == k' + 1;
      var tail := if k < |attempts| then [Message(User, attempts[k].user)] else [];
      assert k < |attempts| ==> attempts[1..][k'] == attempts[k];
      assert attempts[..k][1..] == attempts[1..][..k'];
      assert AddedAll(attempts[..k]) == added + AddedAll(attempts[1..][..k']);
      calc {
        Run(st, attempts).stream;
        Run(next, attempts[1..]).stream;
        (st.stream + added) + AddedAll(attempts[1..][..k']) + tail;
        st.stream + (added + AddedAll(attempts[1..][..k'])) + tail;
        st.stream + AddedAll(attempts[..k]) + tail;
      }
    }
  }

  /** Whatever the player types, the model answers or the call raises, the
      stream stays well formed and is only appended to. */
  lemma {:induction false} RunWellFormed(st: State, attempts: seq<Attempt>)
    requires WellFormed(st)
    ensures WellFormed(Run(st, attempts))
    ensures st.stream <= Run(st, attempts).stream
    decreases |attempts|
  {
    if attempts != [] {
      var next := Step(st, attempts[0].user, attempts[0].reply);
      StepWellFormed(st, attempts[0].user, attempts[0].reply);
      RunWellFormed(next, attempts[1..]);
    }
  }

  /** The rounds of submissions whose calls all returned. */
  function Completed(attempts: seq<Attempt>): (rounds: seq<Exchange>)
    requires forall i :: 0 <= i < |attempts| ==> attempts[i].reply.Replied?
    ensures |rounds| == |attempts|
    ensures forall i :: 0 <= i < |attempts| ==> rounds[i] == Exchange(attempts[i].user, attempts[i].reply.text)
    decreases |attempts|
  {
    if attempts == [] then []
    else [Exchange(attempts[0].user, attempts[0].reply.text)] + Completed(attempts[1..])
  }

  /** When every call returns, the submissions add user/assistant pairs. */
  lemma {:induction false} AddedAllTurns(attempts: seq<Attempt>)
    requires forall i :: 0 <= i < |attempts| ==> attempts[i].reply.Replied?
    ensures AddedAll(attempts) == Turns(Completed(attempts))
    decreases |attempts|
  {
    if attempts != [] {
      AddedAllTurns(attempts[1..]);
      assert Completed(attempts)[1..] == Completed(attempts[1..]);
    }
  }

  /** One more user turn after an even-length alternating stream keeps it
      alternating. */
  lemma AlternatingUserTurn(s: seq<Message>, user: string)
    requires Alternating(s) && |s| % 2 == 0
    ensures Alternating(s + [Message(User, user)])
  {
  }

  /** When every completion call returns, the turns after the opening pair
      alternate user and assistant, and the stream has odd length exactly
      when the game has ended. */
  lemma RepliedRunAlternates(attempts: seq<Attempt>)
    requires forall i :: 0 <= i < |attempts| ==> attempts[i].reply.Replied?
    ensures Alternating(Run(Initial(), attempts).stream)
    ensures Run(Initial(), attempts).ended <==> |Run(Initial(), attempts).stream| % 2 == 1
  {
    RunStopsAtFirstEnd(Initial(), attempts);
    var k := FirstWhere(attempts, EndsAttempt);
    var before := attempts[..k];
    AddedAllTurns(before);
    var rounds := Completed(before);
    var s := InitialStream + Turns(rounds);
    AlternatingTurns(InitialStream, rounds);
    assert |s| % 2 == 0;
    if k < |attempts| {
      AlternatingUserTurn(s, attempts[k].user);
    }
  }

  /** The stop phrase is matched in any letter case, and the ellipsis is
      part of it. */
  lemma EndMarkerCases()
    ensures EndsGame("The End...")
    ensures EndsGame("THE END...")
    ensures EndsGame("the end...")
    ensures EndsGame("You strike true. The End...")
    ensures !EndsGame("The End")
  {
    assert OccursLoweredAt("The End...", EndMarker, 0);
    assert OccursLoweredAt("THE END...", EndMarker, 0);
    assert OccursLoweredAt("the end...", EndMarker, 0);
    var s := "You strike true. The End...";
    assert s[17..27] == "The End...";
    assert OccursLoweredAt(s, EndMarker, 17);
  }

  /** Whether a reply ends the game depends only on its lower-cased form. */
  lemma EndsGameIgnoresCase(reply: string)
    ensures EndsGame(Lower(reply)) == EndsGame(reply)
  {
    LowerIdempotent(reply);
  }

  /** One player's game: the module-level `stream` and the end of the game
      that `exit()` brings. */
  class Session {
    var stream: seq<Message>
    var ended: bool

    ghost predicate Valid()
      reads this
    {
      WellFormed(State(stream, ended))
    }

    /** The module-level initialisation: the rules, then the welcome. */
    constructor ()
      ensures Valid()
      ensures stream == [Message(System, SystemMsg), Message(Assistant, WelcomeMsg)] && !ended
    {
      stream := InitialStream;
      ended := false;
    }

    /** The submit callback. The user turn is appended before the call; if
        the call raised, the callback stops there and shows nothing. Otherwise
        `shown` is what goes to the chat widget: the reply, followed by the
        game-over notice when the reply ends the game. After the game has
        ended nothing happens. */
    method Submit(user: string, reply: Reply) returns (shown: seq<string>)
      requires Valid()
      modifies this
      ensures Valid()
      ensures State(stream, ended) == Step(old(State(stream, ended)), user, reply)
      ensures shown == if old(ended) || reply.CallFailed? then []
                       else if EndsGame(reply.text) then [reply.text, GameOverText]
                       else [reply.text]
    {
      if ended {
        return [];
      }
      StepWellFormed(State(stream, ended), user, reply);
      stream := stream + [Message(User, user)];
      if reply.CallFailed? {
        return [];
      }
      var modelResponse := reply.text;
      shown := [modelResponse];
      if Contains(Lower(modelResponse), EndMarker) {
        shown := shown + [GameOverText];
        ended := true;
      } else {
        stream := stream + [Message(Assistant, modelResponse)];
      }
    }
  }
}
