# Choose-your-own-adventure scripts: conversation streams, the stop phrase and quote documents

This project is a Dafny model of the logic in four demo scripts. They drive a
text adventure with a hosted chat-completion model, and one of them loads
philosophers' quotes into a vector store.

- **Web game** (`experiments/adventure-app/app.py`). The module-level `stream`
  starts with the system message (the game's rules) and a welcome message
  from the assistant. Each submission appends the player's text as a user
  turn before the completion call is made. If the call raises, the callback
  stops there: the user turn stays, no assistant turn follows, and the game
  goes on. Otherwise the model's reply is checked for `"the end..."` in its
  lower-cased form. If the phrase is absent, the reply is appended as an
  assistant turn. If it is present, the reply and a "Game Over" notice go
  only to the chat widget, and `exit()` ends the game. This is modelled as the
  class `AdventureApp.Session`. Its specification is the pure state machine
  `State`/`Step`/`Run`.
- **Chat module** (`experiments/adventure-app/modules.py`). It keeps a stream
  seeded the same way. Every click appends the input as a user turn and then a
  placeholder reply, `"model response to (" + input[0:5] + ")"`. This is
  modelled as the class `ChatModule.ChatServer`.
- **Console game** (`experiments/choose-your-own-adventure.py`). The first
  input is `"Begin the adventure."`. The loop asks the language-model chain
  for a response and stops at the first response that contains the exact,
  case-sensitive text `"The End..."`. Otherwise it reads the player's reply
  and uses it as the next input. This is modelled as the method
  `TerminalGame.Play`. It reads a sequence of model responses and a sequence
  of player replies.
- **Quote documents** (`experiments/integrate-with-datastax.py`). Each dataset
  entry becomes a document. The document's content is the quote. Its metadata
  holds `"author"` mapped to the author. Each piece of the tags split on `";"`
  is mapped to `"y"`. This is modelled as the methods `Ingest.EntryMetadata`
  and `Ingest.BuildDocs`, proved against the function `Ingest.Metadata`.

Shared pieces:
- `Text` holds ASCII `lower()`, the substring test `in`, `split` with its
  inverse `join`, and the slice `s[0:n]`.
- `Messages` holds role/content messages and the user/assistant pairs added
  by completed rounds.
- `Sequences` holds the search for the first element with a property.

The completion API call, the LangChain prediction and `input()` are
parameters of the model. The web game's reply is an argument of `Submit`:
either the model's text or the failure of the call. The console game's
responses and replies are sequences.

On a terminating reply, neither the reply nor the "Game Over" notice enters
`stream`: the stream grows by exactly one entry, the user turn (app.py lines
118-123). On a non-terminating reply it grows by two, and on a failed call
by one.

## Model

| member | source | states |
|---|---|---|
| `Sequences.FirstWhere` | experiments/choose-your-own-adventure.py:84-88 | the index of the first element with the property, or the length when there is none: no earlier element has it, and the one found does |
| `Text.LowerChar` | experiments/adventure-app/app.py:118 | the result is never an upper-case ASCII letter; characters other than upper-case letters are kept; an upper-case letter becomes the lower-case letter 32 code points above it |
| `Text.Lower` | experiments/adventure-app/app.py:118 | `lower()` keeps the length and lowers every character in place, so no upper-case ASCII letter is left and every other character is kept |
| `Text.LowerIdempotent` | experiments/adventure-app/app.py:118 | lowering twice equals lowering once |
| `Text.Contains` | experiments/adventure-app/app.py:118 | the left-to-right scan is true exactly when the needle occurs at some position of the text |
| `Text.ContainsLower` | experiments/adventure-app/app.py:118 | an occurrence of a needle survives lowering both strings |
| `Text.ContainsLoweredWindow` | experiments/adventure-app/app.py:118 | a needle occurs in the lowered text exactly when some stretch of the original text lowers to the needle |
| `Text.Take` | experiments/adventure-app/modules.py:96 | `s[0:n]` is a prefix of `s` whose length is the smaller of `n` and `len(s)`, so it never fails |
| `Text.Split` | experiments/integrate-with-datastax.py:52 | `split(";")` gives at least one piece, and no piece contains the separator |
| `Text.JoinSplit` | experiments/integrate-with-datastax.py:52 | joining the pieces of a split with the separator gives back the original string |
| `Text.SplitJoin` | experiments/integrate-with-datastax.py:52 | splitting the join of separator-free pieces gives back the pieces, empty ones included |
| `Messages.Turns` | experiments/adventure-app/app.py:109-125 | completed rounds add two messages each, in round order: the user turn with the player's text, then the assistant turn with the reply |
| `Messages.AlternatingTurns` | experiments/adventure-app/app.py:109-125 | appending completed rounds to an alternating stream of even length keeps the user/assistant alternation |
| `Messages.TurnsAppend` | experiments/adventure-app/modules.py:89-90 | the messages of two runs of rounds, one after the other, are the two runs' messages concatenated |
| `AdventureApp.Initial` | experiments/adventure-app/app.py:47-49 | the stream starts as exactly the system message with the rules and the assistant's welcome, and the game is not ended |
| `AdventureApp.EndsGame` | experiments/adventure-app/app.py:118 | a reply ends the game exactly when some stretch of it spells "the end..." in some mix of letter cases |
| `AdventureApp.AnyCaseEnds` | experiments/adventure-app/app.py:118 | a reply containing any capitalisation of "the end...", such as "The End..." as the rules ask, ends the game |
| `AdventureApp.Step` | experiments/adventure-app/app.py:105-125 | an ended game ignores a submission; otherwise the old stream is a strict prefix of the new one and the next entry is the user's text verbatim; the game ends exactly when the call returned a reply whose lower-cased form contains "the end..."; the stream grows by 2 when the call returned a reply that does not end the game, with that reply last, and by 1 when the call failed or the reply ended the game |
| `AdventureApp.StepWellFormed` | experiments/adventure-app/app.py:105-125 | a submission keeps the stream well formed: rules and welcome first, no other system message, every assistant turn right after a user turn, and an ended game's stream ending with the user turn that ended it |
| `AdventureApp.FailedCallRepeatsUserTurn` | experiments/adventure-app/app.py:109-116 | a failed completion call keeps the user turn and leaves the game running, so the next submission puts two user turns in a row and the user/assistant alternation breaks |
| `AdventureApp.RunEnded` | experiments/adventure-app/app.py:123 | after the game has ended, no sequence of submissions changes the state |
| `AdventureApp.RunStopsAtFirstEnd` | experiments/adventure-app/app.py:105-125 | over any sequence of submissions (`Run`), the game ends exactly at the first one whose call returned a reply containing the stop phrase; the stream is the old stream, then each earlier submission's user turn followed by its reply where the call returned one, then only the user turn of the ending submission |
| `AdventureApp.RunWellFormed` | experiments/adventure-app/app.py:105-125 | whatever the player types and whether each call returns or fails, the stream stays well formed and is only appended to |
| `AdventureApp.Completed` | experiments/adventure-app/app.py:109-125 | submissions whose calls all returned give one round each, in order, of the user's text and the reply |
| `AdventureApp.AddedAllTurns` | experiments/adventure-app/app.py:109-125 | when every call returns, the submissions add exactly the user/assistant pairs of their rounds |
| `AdventureApp.AlternatingUserTurn` | experiments/adventure-app/app.py:109 | appending a user turn to an alternating stream of even length keeps it alternating |
| `AdventureApp.RepliedRunAlternates` | experiments/adventure-app/app.py:105-125 | when every completion call returns, the turns after the opening pair alternate user and assistant, and the stream has odd length exactly when the game has ended |
| `AdventureApp.EndMarkerCases` | experiments/adventure-app/app.py:118 | "The End...", "THE END..." and "the end..." end the game, as does a reply that ends with "The End...", but "The End" without the ellipsis does not |
| `AdventureApp.EndsGameIgnoresCase` | experiments/adventure-app/app.py:118 | whether a reply ends the game is the same for the reply and its lower-cased form |
| `AdventureApp.Session.constructor` | experiments/adventure-app/app.py:47-49 | the stream is exactly the system message and the welcome message, not ended |
| `AdventureApp.Session.Submit` | experiments/adventure-app/app.py:104-125 | the new stream and flag are `Step` of the old ones; the widget is shown the reply, plus the game-over notice when the reply ends the game; it is shown nothing when the call failed (the user turn is still kept) or the game had already ended |
| `ChatModule.ResponsePlaceholder` | experiments/adventure-app/modules.py:94-96 | the placeholder starts with "model response to (" and ends with ")"; between them is a prefix of the input of length min(5, len(input)) |
| `ChatModule.PlaceholderQuotes` | experiments/adventure-app/modules.py:96 | an input of at most five characters is quoted whole; a longer one is quoted as its first five characters |
| `ChatModule.Clicks` | experiments/adventure-app/modules.py:89-90 | each click gives one round, in click order, of the input and its placeholder reply |
| `ChatModule.ClicksWellFormed` | experiments/adventure-app/modules.py:25-39 | after any clicks, the stream is the two seeded messages then two entries per click: length 2 + 2n, alternation kept, and each reply is the placeholder of the input before it |
| `ChatModule.ChatServer.constructor` | experiments/adventure-app/modules.py:25-39 | the stream is exactly the system message and the welcome message |
| `ChatModule.ChatServer.UpdateMessages` | experiments/adventure-app/modules.py:87-91 | the old stream followed by the user turn with the input verbatim, then the placeholder reply; the stream stays well formed |
| `TerminalGame.Inputs` | experiments/choose-your-own-adventure.py:83-89 | the inputs of the first n predictions are "Begin the adventure." and then the player's replies, in order |
| `TerminalGame.Play` | experiments/choose-your-own-adventure.py:83-89 | with `EndsGame` the case-sensitive test for "The End...", the game finishes exactly when the first response containing it comes before the player's replies run out, after 1 + that index predictions; the first input is "Begin the adventure." and each later input is the previous reply; no earlier response contains the phrase, and no reply is read after the ending response |
| `TerminalGame.ConsoleEndImpliesWebEnd` | experiments/choose-your-own-adventure.py:87 | every response that stops the console game would stop the web game, but "the end..." in lower case stops only the web game |
| `Ingest.TagKeys` | experiments/integrate-with-datastax.py:50-53 | missing or empty tags give no keys; otherwise the keys are exactly the pieces of the split |
| `Ingest.MetadataWith` | experiments/integrate-with-datastax.py:49-53 | the keys are the flags plus "author", every flag maps to "y", and "author" maps to the author unless it is a flag |
| `Ingest.Metadata` | experiments/integrate-with-datastax.py:49-53 | without tags the metadata is exactly {"author": author}; with tags its keys are "author" and the tag pieces and nothing else, each piece maps to "y", and a tag "author" overrides the author |
| `Ingest.EmptyPieces` | experiments/integrate-with-datastax.py:52-53 | `";;"` splits into three empty pieces and a trailing `";"` gives an empty last piece, so the empty string becomes a key |
| `Ingest.DuplicateTags` | experiments/integrate-with-datastax.py:52-53 | a repeated tag collapses to one key: tags "x;x" give the same metadata as "x" |
| `Ingest.AuthorTagOverrides` | experiments/integrate-with-datastax.py:49-53 | a tag literally "author" replaces the author's name with "y" |
| `Ingest.EntryMetadata` | experiments/integrate-with-datastax.py:49-53 | the dictionary built in place by the inner loop equals the metadata of the entry |
| `Ingest.BuildDocs` | experiments/integrate-with-datastax.py:47-56 | there is one document per entry, in dataset order, with the entry's quote as page content and the entry's metadata |

## Left out

- The OpenAI chat-completion call (app.py lines 111-116) and `LLMChain.predict` (choose-your-own-adventure.py line 85) are parameters. The reply is an argument of `Submit`, and the responses are a sequence. The chain's memory of earlier turns is not modelled.
- `TerminalGame.Play`: the real model never runs out of responses, but the sequence in the model does. When every given response has been used without the game ending, the outcome is `InProgress`. When `input()` has no reply left to give, the outcome is `InputClosed`; in Python this raises `EOFError`.
- `TerminalGame.Play`: an exception raised by `predict` (a failed call to the model) is not modelled separately; in Python it ends the script.
- `exit()` is modelled as the terminal `ended` state. Once the game has ended, a submission changes nothing and shows nothing.
- The web game's `stream` is one process-wide list shared by every browser session, under `async` callbacks. The model covers a single session and no concurrency.
- These are rendering and framework behaviour and are not modelled: the Shiny UI layout, `ui.Chat` (apart from which texts the submit callback passes to `append_message`), the `render.text` output `str(stream)` of `messages()`, and the API-key input.
- These are console I/O and are not modelled: `print` of the example entry, the responses and the search results.
- These are I/O and foreign services and are not modelled: the Cassandra connection, `CassandraChatMessageHistory.clear()`, `toml` secrets and `pyprojroot`.
- These are network and vector-store internals and are not modelled: `load_dataset`, OpenAI embeddings, `AstraDBVectorStore.add_documents` and `similarity_search`.
- `Text.Lower` lower-cases only the ASCII letters A-Z. It does not model Python's full Unicode `str.lower()`.
- `Ingest.Entry` models `tags` as absent or a string, with Python truth as "present and non-empty". Other value types in the dataset column are not modelled.
- In app.py, the first `_SYS`/`stream` assignment (lines 32-33) is overwritten by lines 47-48 and so has no effect. The model starts from the later one.
