# SommerferienserverBot in Dafny

The bot is one Python script, `main.py`. Each run does four things. It asks a public
status API about a Minecraft server. It reconciles a small presence record, kept in
`playerStatuses.json`, that maps each online player to the time that player was first
seen online. It builds a Discord message from the status and the record. It then posts
that message to a webhook, or edits an existing message there.

This project models the three pieces of logic inside the script and proves what they
promise:

- **Presence reconciliation** (`presence.dfy`, `reconcile.dfy`). The record is a Python
  dict, and a dict keeps the order in which its keys were inserted. So the model holds
  the record as a key order plus a map (`Presence.Statuses`). The dict the script updates
  in place is a class, `Presence.StatusTable`, with `Clear`, `Insert` and `Delete`. The
  script's two loops are the methods `RegisterPlayers` and `RemoveAbsent`. They are
  proved against the functions `Registered`, `Pruned` and `Reconciled`. The lemmas about
  those functions state the key set, the kept and new first-seen times, the order of the
  keys, and idempotence.
- **Webhook routing** (`webhook.dfy`). `Route` is the script's reassignment of method
  and URL. It is proved equal to `Endpoint`, and the message id can be read back from
  the URL.
- **Message composition** (`text.dfy`, `compose.dfy`). This covers the motd join, the
  pluralised count line, the avatar URL and the colour taken from the first six digits of
  the name's MD5 digest. `Compose` builds the embed list. `PlayerEmbedsFollowRecord`
  relates the player embeds to the reconciled record.

`run.dfy` chains the three steps in the script's order: reconcile, route, compose.

Inputs that come from I/O in the script are parameters here:

- the player names, the motd lines and the online count (the decoded API answer);
- the current time `now`, kept as an opaque ISO-8601 string;
- the rendered `%H:%M:%S` time of the run (`clock`);
- the webhook URL and the optional message id (environment variables);
- two functions: `digest`, the MD5 hex digest of a name (32 lowercase hexadecimal
  digits), and `hourMinute`, the `%H:%M` rendering of a stored timestamp.

The model follows the code. In particular:

- The player embeds come in the record's order, not the order of the player list. That
  means players who were already online come first, in their old order, and then the
  newcomers in list order (`Reconciliation.ReconciledOrder`,
  `Composition.PlayerEmbedsFollowRecord`).
- The script has no offline branch. There is no offline embed. A missing player list
  clears the record, just as an empty one does.
- The script does not filter out "Anonymous Player" and does not sort the list.
- The word is "player" for a count of 1 and "players" for 0 and for any larger count.
  Because of `(count or 2) > 1`, a negative count would also get "player"
  (`Composition.PluralSuffix`).

## Model

| member | source | states |
|---|---|---|
| Presence.Load | main.py:17-20 | empty file content gives the empty record; otherwise the decoded record, which is a well-formed dict |
| Presence.StatusTable.Clear | main.py:22-23 | `clear()` leaves a well-formed, empty record |
| Presence.StatusTable.Insert | main.py:31-32 | storing a new key appends it after all existing keys and maps it to the given time; the record stays well-formed |
| Presence.StatusTable.Delete | main.py:35-36 | `del` removes the key from the map and from the order, the other keys keep their relative order; the record stays well-formed |
| Reconciliation.Newcomers | main.py:28-32 | the names appended by the first loop: each listed name not already known, exactly once, none twice |
| Reconciliation.Registered | main.py:25-32 | after the first loop the record is well-formed, its keys are the old keys plus the listed names, old keys keep their time and new keys get the current time |
| Reconciliation.RegisteredOrder | main.py:28-32 | the first loop keeps the old key order and appends the newcomers after it |
| Reconciliation.RegisterStep | main.py:28-32 | one pass of the first loop: an unknown name is appended with the current time, a known name changes nothing |
| Reconciliation.Pruned | main.py:34-36 | after the second loop the keys are exactly the old keys that are current players, with unchanged times, and the record is well-formed |
| Reconciliation.PruneStep | main.py:34-36 | one pass of the second loop keeps its invariant: keys seen so far are filtered, the rest untouched, no time changed, the key about to be deleted is present |
| Reconciliation.Reconciled | main.py:16-36 | the reconciled record is well-formed; with no player list or an empty one it is empty whatever it held before |
| Reconciliation.RegisterPlayers | main.py:26-32 | the first loop, in place, yields `Registered` of the old record and returns the set of listed names |
| Reconciliation.RemoveAbsent | main.py:34-36 | the second loop, deleting over a snapshot of the keys, yields `Pruned` of the old record |
| Reconciliation.Reconcile | main.py:16-36 | the in-place reconciliation leaves exactly `Reconciled` of the old record, and a well-formed record |
| Reconciliation.ReconciledKeys | main.py:26-36 | with a non-empty list the record's keys, and its key order, hold exactly the listed names; every other earlier name is deleted |
| Reconciliation.ReconciledTimes | main.py:31-32 | a listed name already held keeps its original time; a listed name not held before gets the current time |
| Reconciliation.ReconciledOrder | main.py:28-36 | the new key order is the surviving keys in their old order followed by the newcomers in list order, each once |
| Reconciliation.ReconciledIdempotent | main.py:28-36 | reconciling the result again with the same list changes nothing, even with a different current time |
| Reconciliation.RegisteredKnown | main.py:28-32 | when every listed name is already held, the first loop changes nothing |
| Reconciliation.PrunedKeepsAll | main.py:34-36 | when every key is a current player, the second loop changes nothing |
| Reconciliation.TwoPlayersJoin | main.py:16-36 | from an empty record, the list Alice, Bob gives the record Alice, Bob, both at the current time |
| Reconciliation.OnePlayerLeaves | main.py:16-36 | from Alice and Carol, the list Alice gives Alice alone, with her original time |
| Text.NatText | main.py:58 | `str()` of a non-negative count is a non-empty run of decimal digits without a leading zero |
| Text.IntText | main.py:58 | `str()` of a count starts with a minus sign exactly when the count is negative |
| Text.IntTextRoundTrip | main.py:58 | the count can be read back from its rendered text |
| Text.HexValue | main.py:72 | `int(h, 16)` of n hexadecimal digits is below 16 to the power n |
| Text.HexText | main.py:72 | the zero-padded hexadecimal rendering has exactly the requested width and only hexadecimal digits |
| Text.HexRoundTrip | main.py:72 | parsing hexadecimal digits and printing the value back at the same width gives the digits back |
| Text.JoinLines | main.py:41 | `"\n".join` of no lines is empty; otherwise the text starts with the first line and is as long as all lines together plus one line break between each two |
| Text.SplitJoinLines | main.py:41 | joining motd lines with line breaks loses nothing: splitting the text at the line breaks gives the lines back |
| Composition.PluralSuffix | main.py:58 | the suffix is "" or "s"; it is "" exactly when the count is 1 or negative, so 0 gives "players" |
| Composition.CountLine | main.py:58 | the count line is the rendered count followed by " player online" or " players online" |
| Composition.CountLineWording | main.py:58 | for a count of 0 or more, the line says "player" exactly when the count is 1 and "players" otherwise |
| Composition.CountLineExamples | main.py:58 | 0 gives "0 players online", 1 gives "1 player online", 7 gives "7 players online" |
| Composition.AvatarUrl | main.py:70 | the avatar URL is the name between `https://minotar.net/helm/` and `/30`: it has that prefix and suffix, and what lies between them is the name |
| Composition.AvatarUrlRoundTrip | main.py:70 | the avatar URL `https://minotar.net/helm/{name}/30` names exactly that player |
| Composition.Colour | main.py:72 | the colour is below 16^6, and its six hexadecimal digits are the first six digits of the digest |
| Composition.Overview | main.py:55-64 | the overview embed has title "Server Status", colour 3332471, no image, the footer "Last updated at" with the run's time, and a description that is the joined motd lines in a code block, then a line break and the count line in bold |
| Composition.PlayerEmbed | main.py:67-76 | a player's embed is titled with the name, has no description, the avatar URL of that player, the colour `Colour` of the name's digest (whose six hex digits are the digest's first six) and the footer "online since" with the first-seen time |
| Composition.Compose | main.py:54-78 | the message has 1 + (number of record keys) embeds: first the overview (title "Server Status", colour 3332471, footer with the run's time), then one embed per key in record order, each exactly `PlayerEmbed` of that key and its first-seen time (so titled with the name, no description, that player's avatar URL, the colour `Colour` of the name's digest, the first-seen time); no two player embeds share a title |
| Composition.OverviewOnlyWithoutPlayers | main.py:54-78 | with no player list or an empty one, the message is the overview alone |
| Composition.PlayerEmbedsFollowRecord | main.py:67-78 | after a non-empty list, the player embeds are titled with the surviving names in their old order, then the newcomers in list order, and their titles are exactly the listed names |
| Webhook.HasMessageId | main.py:50 | the message id counts as unset exactly when it is missing or the empty string, the values Python treats as false |
| Webhook.Endpoint | main.py:48-52 | the method is PATCH exactly when a non-empty message id is set, otherwise POST; the URL always starts with the webhook URL |
| Webhook.EndpointRoundTrip | main.py:48-52 | the edited message can be read back from the URL: the configured id for PATCH, none for POST; without a message id the URL is the webhook URL unchanged |
| Webhook.Route | main.py:48-52 | the script's reassignment of method and URL yields exactly `Endpoint` |
| Run.RunOnce | main.py:14-84 | one run loads the record from the file's content, reconciles it in place, then sends the routed request whose body is the message composed from the reconciled record; the returned table is the record written back |

## Left out

- The HTTP GET to the status API (main.py:14) and the webhook request itself (main.py:84)
  are network I/O. The decoded answer is an input, and the request is returned as a value.
- The environment lookups of `SERVER_ADDRESS`, `WEBHOOK_URL` and `WEBHOOK_MESSAGE_ID`
  (main.py:12-13, 46-47) are not modelled. The webhook URL and the message id are
  parameters. The status URL built from the server address is not modelled.
- Opening, reading and writing `playerStatuses.json`, and JSON decoding and encoding
  (main.py:7-8, 17-20, 38-39), are file I/O. `Presence.Load` receives the decoded record.
  The file written back is the table `Run.RunOnce` returns.
- `datetime.now()`, `isoformat()`, `fromisoformat()` and `strftime()` (main.py:25, 61, 74)
  are clock and formatting calls. Timestamps and rendered times are opaque strings and
  function parameters.
- MD5 (main.py:72) is a foreign cryptographic call. It is the parameter `digest`, assumed
  to return 32 lowercase hexadecimal digits as `hexdigest()` does.
- The crashes of the script on malformed input are not modelled. These are a missing
  `players` or `motd` key, a list entry without `name`, a record file that does not hold
  a JSON object, a stored first-seen time that `datetime.fromisoformat` cannot parse
  (main.py:74; `hourMinute` is total here), and an unset `WEBHOOK_URL` combined with a message id. Player list
  entries are reduced to their names.
- The `Content-Type: application/json` header (main.py:80-82) is a fixed constant of the
  request and is not part of `Run.Request`.
- The wire format of the message (JSON field names such as `image.url`) is not modelled.
  `Composition.Embed` holds the same fields as a datatype.
