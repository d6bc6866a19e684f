# Telegram channel forwarder: the deduplicating relay step

The forwarder copies new messages from a source Telegram channel to a target
channel. It keeps a ledger, a set of message ids it has already forwarded,
in a JSON file. Each run does the following:

- it validates its settings;
- it loads the ledger;
- it fetches the newest message (on a first run, when the ledger is empty) or
  the newest 50;
- it walks them oldest first and forwards every message whose id is not in
  the ledger;
- it adds each id whose forward succeeded;
- it pauses between successes and after rate-limit errors;
- it saves the ledger once at the end.

This project models that logic in Dafny.

- `config.dfy` (module `Config`): the required-settings check and the ledger
  path default. Pure functions.
- `ledger.dfy` (module `Ledger`): loading and saving the ledger. The file
  content is an abstract value: `Malformed`, `Falsy` (null, false, 0, "" or
  {}) or `Array(ids)`. The empty list `[]`, although falsy, is `Array([])`.
  A missing file is a path absent from the file map.
  `ListOf` is `list(set)`, a loop over the set.
- `relay.dfy` (module `Relay`): the relay run as a specification.
  - `Step` handles one fetched item.
  - `Run(ledger0, w, o, j)` is the state after positions `|w|-1` down to `j`
    were handled. The fetched list is newest first, so this is oldest first.
  - `FullRun` is a whole run.
  - Lemmas state the ledger, order, selection and pause properties of every
    run.
- `forwarder.dfy` (module `Forwarder`): the `Forwarder` class.
  - Its fields are `ledger: set<int>` and the file map `files`.
  - `ForwardNewMessages` is the imperative loop, which updates `ledger` in
    place. Its loop invariant ties it to `Relay.Run`.
  - `Save` writes the ledger back. `Start` is construction from the
    environment.

The messaging client is an input. `history` is the source channel newest
first; the fetch is its first 1 or 50 items. `outcomes[i]` is what the client
answers when asked to forward the item at position `i`: `Ok`, or `Err(text)`
with the error text. Sleeping is recorded as a pause amount on each request
in the returned trace (0 for none), not as time.

With ledger {101, 102} and fetched messages 100, 101, 102, 103, one might
expect only 103 to be new. But 100 is not in the ledger either, so the loop
forwards it too. `Relay.CatchUpScenario` proves that the run forwards 103 and
then 100, and that the ledger ends as {100, 101, 102, 103}.

## Model

| member | source | states |
|---|---|---|
| `Config.Lookup` | main.py:12-18 | `os.getenv(key)` yields a value exactly when the variable is set, and that value is the variable's |
| `Config.All` | main.py:26 | `all([...])` over looked-up settings is true exactly when every value is set and non-empty |
| `Config.LedgerPath` | main.py:21 | the ledger path is the variable's value whenever it is set (even to ""), and `forwarded_messages.json` only when it is unset |
| `Config.Validate` | main.py:12-27 | construction fails with the "Missing required environment variables" error iff one of API_ID, API_HASH, PHONE_NUMBER, SOURCE_CHANNEL, TARGET_CHANNEL is unset or empty; otherwise the settings carry the variables' values and the ledger path |
| `Ledger.Decode` | main.py:36-41 | the loaded set holds exactly the ids of a list payload; malformed or falsy content yields the empty set |
| `Ledger.Load` | main.py:33-42 | a missing file yields the empty set; otherwise an id is loaded iff the file holds a list containing it |
| `Ledger.ListOf` | main.py:47 | `list(set)` lists every member of the set exactly once and nothing else |
| `Ledger.LoadAfterSave` | main.py:33-47 | loading a saved listing of any set S gives back S, including S = {} (saved as `[]`, which is falsy) |
| `Relay.FetchLimit` | main.py:56-61 | the fetch window is 1 exactly when the ledger is empty, and 50 otherwise |
| `Relay.Window` | main.py:64 | the fetched items are a prefix (the newest) of the channel history, at most `limit` long, and shorter only when the history is |
| `Relay.Contains` | main.py:91 | `pattern in text` is false when the pattern is longer than the text and true when the text starts with the pattern |
| `Relay.ContainsIffOccurs` | main.py:91 | the rate-limit test `"Too Many Requests" in str(e)` holds iff the marker occurs at some position of the error text |
| `Relay.PauseAfter` | main.py:85-93 | the pause after a request is 0, 2 or 60; it is 2 exactly after a success that brings the count above 1, and 60 exactly after an error whose text contains "Too Many Requests" |
| `Relay.Step` | main.py:70-93 | one loop iteration makes a request exactly for a `Message` whose id is not in the ledger, and the count grows by one exactly when that request succeeds |
| `Relay.StepAccounts` | main.py:70-81 | one iteration keeps the ledger equal to the old ledger plus the distinct, new ids of the successful requests, with the count and the ledger's growth equal to their number |
| `Relay.Run` | main.py:69-93 | after the iterations for the oldest fetched items down to a position, there is at most one request per handled item and at most one success per request |
| `Relay.FullRun` | main.py:69-93 | a whole loop over the window: the ledger holds exactly the old ids and the successfully forwarded ids, the count equals both the number of successes and the growth of the ledger, and no request is for an id of the old ledger |
| `Relay.RunLedger` | main.py:69-81 | after a run the ledger is the old ledger plus exactly the ids whose forward succeeded: nothing is removed, successes are distinct and new, and the count equals both the number of successes and the growth of the ledger |
| `Relay.StepOffers` | main.py:69-77 | one iteration keeps every request for a new `Message` at a handled position, with that position's answer, and keeps the requests oldest first |
| `Relay.RunTrace` | main.py:69-77 | a forward request is only ever made for a `Message` whose id was not in the starting ledger, with that position's answer, and requests go strictly from the oldest fetched position to the newest |
| `Relay.StepPauses` | main.py:85-93 | one iteration keeps the pause of every request following the pause rule |
| `Relay.RunPauses` | main.py:85-93 | after a success the pause is 2 iff the success count so far exceeds 1; after a failure it is 60 iff the error text contains "Too Many Requests"; otherwise there is no pause |
| `Relay.StepAttempted` | main.py:69-70 | handling one position leaves the earlier handled positions' requests as they were and requests this position exactly when it holds a `Message` whose id is not in the ledger |
| `Relay.RunAttempts` | main.py:69-93 | the item at a position is offered iff it is a `Message` whose id is not in the ledger when the run reaches it, so a failed forward never stops later items from being handled |
| `Relay.FirstRunForwardsNewest` | main.py:57-81 | on a first run only the newest message is fetched and offered; on success it becomes the whole ledger and the count is 1 |
| `Relay.CatchUpScenario` | main.py:60-81 | ledger {101, 102} and fetched messages 100 to 103: 103 and then 100 are forwarded, and the ledger becomes {100, 101, 102, 103} |
| `Forwarder.Forwarder.constructor` | main.py:24-31 | a new forwarder holds the given settings and the ledger loaded from the configured path |
| `Forwarder.Forwarder.IsFirstRun` | main.py:49-51 | it is a first run iff the ledger is empty |
| `Forwarder.Forwarder.Save` | main.py:44-47 | the configured file then holds a list of exactly the ledger's ids, which loads back to the ledger; other files are unchanged |
| `Forwarder.Forwarder.ForwardNewMessages` | main.py:53-101 | the loop's ledger, request trace and count equal `Relay.FullRun` on the fetched window. Consequences: the ledger only grows, and by exactly the successful ids. The count is that growth. No id in the old ledger is requested, no request goes beyond the window, requests run oldest first and pauses follow the rule. The configured file then holds a list of exactly the new ledger's ids, each once, which loads back to the new ledger; other files are unchanged |
| `Forwarder.Start` | main.py:24-31 | constructing from the environment gives a configuration error iff a required setting is unset or empty; otherwise a new forwarder with the ledger loaded from the configured path |

## Left out

- The Telethon client: `TelegramClient`, `start`, `get_messages`, `forward_messages` and `disconnect` (main.py:30, 64, 73-77, 109, 115) are a foreign library. Fetch results and forward answers are inputs.
- Failures inside `forward_new_messages` are not modelled: the model always completes the loop and saves successfully. An exception from `get_messages` (main.py:64), or one raised inside the `except` branch at main.py:89-93, is caught by the outer `try` at main.py:103-104 and skips the save. A save that fails (main.py:46-47) has already run, and `open(path, 'w')` may already have truncated the file.
- An empty or unopenable ledger path is not modelled. With `FORWARDED_MESSAGES_FILE=""` set, `open('')` fails, so that ledger is never saved, but the model writes the file under the key `""`.
- Failures of loading that escape `load_forwarded_messages` are not modelled. These are a `PermissionError` or `IsADirectoryError` when opening the file, a `UnicodeDecodeError` (a `ValueError`, which main.py:123-124 reports as a configuration error), and a list with an unhashable element such as `[[1]]` (`TypeError` at main.py:39).
- A list of non-integers such as `["a"]` loads in the source as a set of strings. `Array(seq<int>)` cannot represent it, so it is not modelled.
- `Forwarder.Start`: its iff covers only the required-settings check at main.py:26. `TelegramClient(...)` at main.py:30 can raise inside the constructor, and loading can raise as above; neither is modelled.
- `Relay.Window`: what `get_messages` returns is modelled as the newest `limit` items of a given history. The client's own paging and filtering are not modelled.
- JSON text: the ledger file is an abstract value. A truthy payload that is not a list (a number, a non-empty string or object) is not modelled. For a number, `set(data)` raises `TypeError` at main.py:39.
- The race in which the file disappears between `os.path.exists` and `open` (the `FileNotFoundError` branch at main.py:40) gives the same empty set as a missing file. It is not a separate case.
- `Ledger.ListOf`: the order of `list(set)` is left unspecified, as in Python.
- Timing: `asyncio.sleep`, `async`/`await` and the event loop are not modelled. Pauses are recorded as amounts (2 or 60) in the trace.
- The error text of a failed forward is an input string standing for `str(e)`. Which exception types the client raises is not modelled.
- Console output (`print`), loading `.env` through `dotenv`, and the error reporting in `main()` (main.py:117-130) are not modelled.
- Session bootstrap, deleting stale credentials, interactive or non-interactive login, and operator notifications are not in main.py. Authentication happens inside `client.start` (main.py:109) and is not modelled.
