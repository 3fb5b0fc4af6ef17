/** The chat messages the scripts send to the completion API: dictionaries
    `{"role": ..., "content": ...}` kept in a list called `stream`. */
module Messages {

  datatype Role = System | User | Assistant

  datatype Message = Message(role: Role, content: string)

  /** One round of play: what the player typed and what the model answered. */
  datatype Exchange = Exchange(user: string, reply: string)

  /** From index 2 on (after the system message and the welcome message),
      the turns alternate user, assistant, user, assistant, ... */
  predicate Alternating(s: seq<Message>) {
    forall i :: 2 <= i < |s| ==> s[i].role == (if i % 2 == 0 then User else Assistant)
  }

  /** The messages that a sequence of completed rounds adds to a stream: for
      each round a user turn with the player's text, then an assistant turn
      with the answer, in order. */
  function Turns(rounds: seq<Exchange>): (r: seq<Message>)
    ensures |r| == 2 * |rounds|
    ensures forall k :: 0 <= k < |rounds| ==>
      r[2 * k] == Message(User, rounds[k].user) && r[2 * k + 1] == Message(Assistant, rounds[k].reply)
    decreases |rounds|
  {
    if rounds == [] then []
    else
      var rest := Turns(rounds[1..]);
      var head := [Message(User, rounds[0].user), Message(Assistant, rounds[0].reply)];
      forall k | 1 <= k < |rounds|
        ensures (head + rest)[2 * k] == Message(User, rounds[k].user)
        ensures (head + rest)[2 * k + 1] == Message(Assistant, rounds[k].reply)
      {
        assert rounds[1..][k - 1] == rounds[k];
        assert (head + rest)[2 * k] == rest[2 * (k - 1)];
        assert (head + rest)[2 * k + 1] == rest[2 * (k - 1) + 1];
      }
      head + rest
  }

  /** Appending completed rounds to an alternating stream of even length
      keeps it alternating. */
  lemma AlternatingTurns(s: seq<Message>, rounds: seq<Exchange>)
    requires Alternating(s) && |s| % 2 == 0
    ensures Alternating(s + Turns(rounds))
  {
    var t := s + Turns(rounds);
    forall i | 2 <= i < |t| && |s| <= i
      ensures t[i].role == (if i % 2 == 0 then User else Assistant)
    {
      var k := (i - |s|) / 2;
      var rs := Turns(rounds);
      assert t[i] == rs[i - |s|];
      if i == |s| + 2 * k {
        assert rs[2 * k].role == User;
      } else {
        assert i == |s| + 2 * k + 1 && k < |rounds|;
        assert rs[2 * k + 1] == Message(Assistant, rounds[k].reply);
      }
    }
  }

  /** The turns of two runs of rounds, one after the other. */
  lemma {:induction false} TurnsAppend(a: seq<Exchange>, b: seq<Exchange>)
    ensures Turns(a + b) == Turns(a) + Turns(b)
    decreases |a|
  {
    if a != [] {
      assert (a + b)[1..] == a[1..] + b;
      TurnsAppend(a[1..], b);
    } else {
      assert a + b == b;
    }
  }
}
