# Fantasy Adventure Quest: the turn engine in Dafny

This project models the turn engine of the text adventure in `game.py`:

- `AdventureGame` keeps the player's health, gold, inventory and step count, and a rolling conversation history of at most ten messages.
- Each turn, the player picks one of the choices the language model offered.
- `make_choice` checks the scene the model returned, applies the chosen effect, records the scene and the choice in the history, and asks the model for the next scene.
- `process_scene` decodes the reply. When the reply does not decode, it asks again, at most three more times. After that it gives up with a fixed fallback story.
- `end_game` builds the endings, and five steps end the story.

The chat service is an oracle. A turn receives the script `replies`, where `replies[k]` answers the k-th request of that turn. A request past the end of the script fails like a network error. `json.loads`, `json.dumps` and the `repr` of a string are abstract functions, bundled as a `Codec`.

Modules:

- `Wrappers`: `Option` and `Result`.
- `Text`:
  - `extract_json`, as the greedy `\{.*\}` search with DOTALL;
  - `str.replace(p, '')`;
  - `str.strip()` over Python's whitespace set;
  - the two reply cleanups.
- `Decimal`: `str(int)` and its inverse, which the effect keys and the "Final Stats" lines use.
- `History`: `add_to_history` as a function on the list, and the window it keeps over a whole conversation.
- `Scenes`:
  - the decoded scene and its optional keys;
  - `to_dict`;
  - the message endings of `end_game`;
  - the fallback scene;
  - the validation and the choice lookup of `make_choice`.
- `Generation`: the repair chain of `process_scene`, `get_next_scene` and the model-narrated ending of `end_game`. The chain takes the cleanup it applies to a retried reply as a parameter, `clean`, so that its lemmas hold for any cleanup. Every caller passes `Text.CleanRetryReply`, which is strip followed by `extract_json` (game.py:527-528).
- `Game`:
  - the classes `PlayerState` and `AdventureGame`, whose methods update fields in place;
  - the pure transitions those methods are proved against: `ChoiceTransition` for the state a choice leaves and what it does next, `Respond` for the scene it then returns, and `DeathCheck` for the override in `process_choice`;
  - lemmas over a whole sequence of choices.

Three behaviours of the code that are easy to misread:

- **The fallback story shows no live stats.** The fallback story of `process_scene` (game.py:532-548) is a plain triple-quoted string, not an f-string. Its "Final Stats" lines hold the literal text `{self.player.health}`, `{self.player.gold}` and the inventory expression, not the player's values. `Scenes.FallbackStory` is that exact text.
- **The last scene can still carry choices.** At the step limit, `get_next_scene` asks the model for an ending and repairs it like any other scene. So the last scene has no choices only when the model's ending has none, or when the fallback or an error ending is used.
- **A bad choice index crashes after the state has changed.** `make_choice` updates the stats and records the assistant entry (game.py:463-470) before it reads `scene["choices"][choice_num - 1]` (game.py:471). A missing `"choices"` key, or an index outside the list, raises there.
  - The exception is not caught, and the model returns `Crashed` with the mutated state.
  - Python's negative indexing is modelled: choice 0 reads the last choice.

## Model

| member | source | states |
|---|---|---|
| Text.ExtractJsonIsRegexSearch | game.py:25-32 | If the text contains a `{` followed somewhere by a `}`, the result is the `re.search` match of `\{.*\}`: the leftmost start, and for that start the longest span. With no such pair, the text comes back unchanged. |
| Text.ExtractJsonSpan | game.py:29-31 | With the first `{` at f and the last `}` at l > f, the result is the text from f to l inclusive. |
| Text.ExtractJsonNoMatch | game.py:29-32 | If no `}` follows any `{`, the result equals the input. |
| Text.ExtractJsonShape | game.py:29-32 | The result is always a contiguous piece of the input. A result that differs from the input starts with `{` and ends with `}`. |
| Text.ExtractJsonIdempotent | game.py:29-31 | Extracting twice gives the same text as extracting once. |
| Text.RemoveAll | game.py:422 | `replace(p, '')` never makes the text longer. |
| Text.RemoveAllAbsent | game.py:422 | `replace(p, '')` leaves a text without `p` unchanged. |
| Text.UnfencedPrefix | game.py:422 | After removing every ```` ``` ````, the output starts with one or two backticks only if the input does. |
| Text.NoFenceLeft | game.py:422 | After `.replace('```', '')`, no ```` ``` ```` remains: no new marker forms across a removed one. |
| Text.StripShape | game.py:422 | `strip()` returns a piece of the text and cuts only whitespace at either end. A non-empty result neither starts nor ends with whitespace. |
| Text.StripIdempotent | game.py:527 | Stripping twice gives the same text as stripping once. |
| Text.CleanReplyHasNoFence | game.py:422-424 | The text that `get_next_scene` hands to `process_scene` contains no ```` ``` ````. |
| Decimal.NatToString | game.py:448 | `str(n)` of a natural number is a non-empty run of decimal digits with no leading zero. |
| Decimal.IntToStringRoundTrip | game.py:448 | `str(i)` reads back as `i`. |
| Decimal.IntToStringInjective | game.py:448-452 | Different choice numbers give different effect keys. |
| History.RecordShape | game.py:394-399 | The new message is the last entry. Up to ten entries, the list is old plus new. Past ten, it is exactly `[old[0]]` followed by the last nine entries of old plus new, in order. At most ten before means at most ten after, and entry 0 is kept. |
| History.RecordWindow | game.py:394-399 | Recording onto the window of a conversation gives the window of the longer conversation. |
| History.RecordAllWindow | game.py:394-399 | The same holds for any number of recorded messages. |
| History.HistoryIsWindow | game.py:394-399 | From an empty history, the list is the whole conversation while it holds at most ten messages. After that it is the first message and the last nine. |
| History.RecordTwice | game.py:470-472 | Two messages recorded in a row end the history in that order, even when it is cut back. |
| Scenes.GameOverScene | game.py:476-489 | `end_game(message)` with a non-empty message gives a terminal scene, with no choices and no effects, that has a story. |
| Scenes.GameOverStory | game.py:477-489 | The story of that ending starts with the message and ends with the live "Final Stats" block. |
| Scenes.FallbackShowsPlaceholder | game.py:530-551 | The fallback scene is terminal, and its story contains the literal text `Health: {self.player.health}`. |
| Scenes.SelectEffect | game.py:438-461 | The validation of `make_choice`. A non-dict gives "Invalid scene format". A dict without "effects" gives "Missing effects". The entry is returned exactly when the effects object holds `str(choice_num)`; otherwise the error is "Missing choice n". |
| Scenes.ShowSnapshotDistinguishes | game.py:45-51 | `str(to_dict())` tells snapshots apart: equal texts mean equal health and gold, and for the same inventory the same step. |
| Scenes.EntriesShowStats | game.py:401-405 | The opening system entry, and the choice report of game.py:472, carry the player's stats: for the same prompt, or the same choice, equal entries mean equal health and gold. |
| Scenes.ChoiceText | game.py:471 | `choices[choice_num - 1]` succeeds exactly when `1 - len <= choice_num <= len`. A positive number counts from the front, a number below 1 counts from the back. A missing key or an index outside the list fails. |
| Generation.ProcessScene | game.py:514-551 | From retry count r, the chain issues at most 3 - r requests. Text that decodes is returned as it is, with no request. A chain that raises ends on a failed request. |
| Generation.ProcessSceneAnswered | game.py:520-529 | Every request of a chain was answered, except possibly a last one that failed. |
| Generation.FirstDecodableReturned | game.py:516-529 | If attempts 0 to k - 1 fail to decode and attempt k decodes to v, the chain returns v unchanged after k requests. |
| Generation.UndecodableEndsInFallback | game.py:520-551 | If every retry is answered and all four attempts fail to decode, the chain issues exactly three requests and returns the fallback scene. |
| Generation.FailedRequestRaises | game.py:523-529 | A request that fails ends the chain at once, with the exception, after k + 1 requests. |
| Generation.EndGame | game.py:476-512 | A non-empty message gives its ending at once, with no request. Otherwise the ending costs one to four requests. A failed first request gives the "comes to an end" ending with the live stats. |
| Generation.NextScene | game.py:410-428 | A turn issues one to four requests. At the step limit, the result is the model-narrated ending. A failed first request gives the "unexpected error" ending. |
| Generation.DecodableFirstReplyIsScene | game.py:415-425 | A first reply that decodes after fence removal, strip and extraction is the scene, after one request. |
| Generation.FourUndecodableRepliesGiveFallback | game.py:410-551 | Four undecodable replies in a row: the turn makes exactly four requests and returns the fallback scene. |
| Generation.FailedRetryGivesErrorEnding | game.py:415-428 | When the first k replies of a turn do not decode and retry request k fails (1 <= k <= 3), the turn returns the "unexpected error" ending after k + 1 requests. |
| Generation.FailedRetryEndsStory | game.py:492-512 | At the step limit, a failed retry request k gives the "comes to an end" ending after k + 1 requests. |
| Game.PlayerState.constructor | game.py:34-43 | A new player has 100 health, 0 gold, an empty inventory and step 0. |
| Game.Apply | game.py:463-467 | Health and gold change by the effect's deltas, an absent delta counting 0. The inventory is the old one followed by the effect's items. The step grows by exactly one. |
| Game.ChoiceAtLimit | game.py:432-436 | At the step limit, a choice changes neither the stats nor the history, and ends at once with the conclusion ending. |
| Game.ChoiceOnBadScene | game.py:438-461 | A scene that fails validation changes neither the stats nor the history, and ends at once with the disruption ending, which names the fault. |
| Game.ChoiceApplied | game.py:463-474 | A valid choice applies its effect and records the scene as an assistant entry. If the choice text cannot be read, the exception follows, with those updates already made. Otherwise the choice report is recorded as a user entry and the next scene is asked for. |
| Game.ChoiceCrashes | game.py:471 | A choice crashes exactly when it is below the step limit, passes validation, and its text cannot be read. |
| Game.ChoiceKeepsSound | game.py:430-474 | A choice leaves the state unchanged or advances the step by exactly one. An ending built at once changes nothing and is terminal. The invariant (step <= 5, history <= 10 entries) is kept. |
| Game.ChoiceRecordsSceneThenChoice | game.py:469-474 | A choice that is read ends the history with the assistant entry and then the user entry, which reports the new stats. |
| Game.DeathOverride | game.py:301-310 | The death check replaces the scene exactly when a completed choice leaves health at or below 0. The new scene is the terminal "perished" ending with the current stats. The requests spent stay counted, and a crash or a living player is left as it was. |
| Game.PlayKeepsSound | game.py:430-474 | Over any sequence of choices from a sound state, the step never passes `MAX_STEPS` and the history never passes ten entries. |
| Game.PlayStepGrowth | game.py:467 | Each choice adds at most one step, so n choices add at most n steps. |
| Game.PlayValidStepsExact | game.py:463-472 | Choices that all pass validation and read their choice text add exactly one step each while the limit allows, so `MAX_STEPS` of them from step 0 end at step `MAX_STEPS`. |
| Game.PlayFrozenAtLimit | game.py:432-436 | Once the step limit is reached, no further choice changes the stats or the history. |
| Game.AdventureGame.constructor | game.py:366-375 | A new game has a fresh player with the default stats and an empty history. |
| Game.AdventureGame.AddToHistory | game.py:394-399 | The history becomes `Record(old history, message)`, the player is untouched, and `Valid()` is kept. |
| Game.AdventureGame.InitializeStory | game.py:401-408 | The method records the system entry with the current stats, then the start request, and returns the first generated scene. It keeps `Valid()`. |
| Game.AdventureGame.UpdateForChoice | game.py:430-472 | The method updates the player and the history in place, exactly as `ChoiceTransition` says, returns what the choice does next, and keeps `Valid()`. |
| Game.AdventureGame.GetNextScene | game.py:410-428 | The method issues one to four requests, returns `NextScene` for the current stats and changes nothing. |
| Game.AdventureGame.MakeChoice | game.py:430-474 | The method ends in the state `ChoiceTransition` gives. It returns the ending built at once, the exception, or the next scene generated from the new stats. |
| Game.AdventureGame.ProcessChoice | game.py:301-310 | The method makes the choice, then applies the death check to its result with the new stats. |
| Game.AdventureGame.RestartGame | game.py:354-363 | The player is fresh with the default stats. The history is the system entry and the start request. The returned scene is the first scene of a new story. |

## Left out

- The Tkinter GUI, fonts, colours, buttons, the loading animation and the display of a scene (game.py:16-23, 53-345). This is presentation only; `process_choice` and `restart_game` are modelled only for their state logic.
- Threading and the `loading` flag. These exist only for concurrency with the UI thread. A crashed choice ends `Game.Play`, because in the source the worker dies with the flag still set.
- The `GROQ_API_KEY` check, the client and the chat-completion call (game.py:366-372). The call is the `replies` oracle.
  - The model does not say that a retry sends the same history.
  - The model does not say which model name is requested.
- The wording of the system prompt (game.py:376-392). It is the `systemPrompt` constructor parameter.
- game_prompts.py is not part of this model: it holds one string constant and no logic.
- The internals of `json.loads` and `json.dumps`, and `repr`. They are the abstract `Codec`.
- Scene values of other JSON types. A `Scenes.Scene` holds integer deltas, a list of item strings, a list of choice strings and an object of effect entries, so these cases have no value in the model:
  - Cases that raise in `make_choice`, outside its `try`: an effect entry that is not an object (game.py:464), a null or string health or gold delta (game.py:464-465), null or numeric items (game.py:466), boolean items (game.py:466), an "effects" value that is null, a boolean or a number (game.py:448), an "effects" list or string that contains the key (game.py:452), and null, boolean, numeric or object "choices" (game.py:471).
  - Cases that silently give values the model cannot hold: a float delta makes health or gold a float, a boolean delta adds 0 or 1, string or object items add its characters or keys to the inventory, non-string items add non-strings, string "choices" give one character as the choice text, and a "choices" list whose entries are not strings puts their `str()` into the user entry (game.py:472).
  - An "effects" list or string that does not contain the key gives the disruption ending through the `KeyError` at game.py:450; the model reaches that ending only for an effects object.
- Decoded scenes keep only their "story", "choices" and "effects" keys. `json.dumps(scene)` at game.py:470 writes every key of the decoded object in its order, so two replies that differ only in another key give the same assistant entry in the model.
- The module-level `process_scene` (game.py:553-581). It is unreachable and calls an undefined function.
- `main` (game.py:583-593) and every `print` diagnostic.
