/** The console game of experiments/choose-your-own-adventure.py: the first
    input is fixed, each model response is checked for the exact text
    "The End...", and otherwise the player's reply becomes the next input.
    The language-model chain is a sequence of responses (the i-th response
    answers the i-th input) and `input()` a sequence of player replies. */
module TerminalGame {
  import opened Text
  import opened Sequences
  import AdventureApp

  /** The human input of the first prediction. */
  const FirstInput: string := "Begin the adventure."

  /** The stop phrase, matched case-sensitively. */
  const EndMarker: string := "The End..."

  /** The loop's test `"The End..." in response`. */
  predicate EndsGame(response: string) {
    Contains(response, EndMarker)
  }

  /** How the loop stopped. `Finished`: a response contained the stop phrase.
      `InputClosed`: a reply was due and there was none left (`input()`
      reaching the end of its input). `InProgress`: the model stands for only
      the responses given, and all of them were used without the game
      ending. */
  datatype Outcome = Finished | InputClosed | InProgress

  /** The inputs sent for the first `n` predictions: the fixed first input,
      then the player's replies in order. */
  function Inputs(replies: seq<string>, n: nat): (sent: seq<string>)
    requires 0 < n <= |replies| + 1
    ensures |sent| == n && sent[0] == FirstInput
    ensures forall j :: 1 <= j < n ==> sent[j] == replies[j - 1]
  {
    [FirstInput] + replies[..n - 1]
  }

  /** The `while True` loop. `sent` lists the human input of every
      prediction made, so `|sent|` is the number of predictions. */
  method Play(responses: seq<string>, replies: seq<string>) returns (sent: seq<string>, outcome: Outcome)
    ensures var k := FirstWhere(responses, EndsGame);
      && (outcome == Finished <==> k < |responses| && k <= |replies|)
      && (outcome == Finished ==> |sent| == k + 1)
      && (outcome == InputClosed <==> |replies| < k && |replies| < |responses|)
      && (outcome == InputClosed ==> |sent| == |replies| + 1)
      && (outcome == InProgress ==> |sent| == |responses|)
    ensures 0 < |sent| ==> |sent| <= |replies| + 1 && sent == Inputs(replies, |sent|)
    ensures |sent| <= |responses|
    ensures forall j :: 0 <= j < |sent| - 1 ==> !EndsGame(responses[j])
  {
    var choice := FirstInput;
    sent := [];
    var i := 0;
    while i < |responses|
      invariant i <= |responses| && i <= |replies|
      invariant i <= FirstWhere(responses, EndsGame)
      invariant |sent| == i && (0 < i ==> sent == Inputs(replies, i))
      invariant choice == if i == 0 then FirstInput else replies[i - 1]
      invariant forall j :: 0 <= j < i ==> !EndsGame(responses[j])
    {
      var response := responses[i];
      sent := sent + [choice];
      if Contains(response, EndMarker) {
        outcome := Finished;
        return;
      }
      if i == |replies| {
        outcome := InputClosed;
        return;
      }
      choice := replies[i];
      i := i + 1;
    }
    outcome := InProgress;
  }

  /** The console game stops only on the exact capitalisation
      "The End...", while the web game also stops on "the end..." and
      "THE END...": every response that ends the console game ends the web
      game, and a lower-case "the end..." ends only the web game. */
  lemma ConsoleEndImpliesWebEnd(response: string)
    ensures EndsGame(response) ==> AdventureApp.EndsGame(response)
    ensures AdventureApp.EndsGame("the end...") && !EndsGame("the end...")
  {
    assert Lower(EndMarker) == AdventureApp.EndMarker;
    if EndsGame(response) {
      AdventureApp.AnyCaseEnds(response, EndMarker);
    }
    assert OccursLoweredAt("the end...", AdventureApp.EndMarker, 0);
    assert "the end..."[0] != EndMarker[0];
    assert !OccursAt("the end...", EndMarker, 0);
  }
}
