# Nano Banana pizza bot — verified model

Nano Banana is a Telegram bot for a pizzeria. A user sends a photo of a pizza.
The bot stores the photo in the `fotos-pizza` bucket and asks a captioning
model for three caption ideas separated by `|||`. It splits and trims the
answer into three options, saves a row in the `publicaciones` table and shows a
menu with a preview of each option. When the user answers `1`, `2` or `3`, the
bot reads back the user's latest row and, if the page credentials are
configured, posts the photo with the chosen caption to the Facebook page
through the Graph API.

This project models the decision-making of `bot.py`, with every network call
replaced by its result:

- `wrappers.dfy`: the `Option` type used for "nothing found".
- `pystr.dfy`: the parts of Python's `str` that the bot relies on:
  - `split` with a separator, defined with the help of `find` and specified
    with the help of `join` (the bot calls neither of those two);
  - `strip()` with Python's whitespace set;
  - `str(int)`.

  Each comes with its partner: split and join, strip and its characterisation,
  decimal printing and parsing.
- `captions.dfy`: the caption parser (split, fallback to generic options,
  strip) and the 100-character preview.
- `naming.dfy`: the object name `<user id>_<unique id>.jpg` and its decoding.
- `choices.dfy`: the choice guard and the `opcion_k` column it selects.
- `records.dfy`: the table rows, the "latest row of this user" query and the
  ordering of ids.
- `graph.dfy`: when a request is sent, what it carries, and how its outcome is
  reported.
- `conversation.dfy`: the conversation as a whole.
  - Its states and the dispatch table.
  - A `Bot` class holding each user's state, the bucket, the table, the
    replies sent and the requests sent to the Graph API.
  - One method per handler, plus `Handle`, which dispatches a message. It
    keeps two invariants across every message: ids stay ordered, and every
    user being asked to choose has a row.

Two properties of the caption parser:

- The options are not always non-empty. `"|||pizza|||promo"` yields an empty
  first option (`Captions.EmptyOptionPossible`).
- "N/A" can still appear, but only when the captioning model wrote it. The
  code's own "N/A" fallback branches can never be taken
  (`Captions.ParseOptionsAsWritten`).

## Model

| member | source | states |
|---|---|---|
| PyStr.FindFrom | bot.py:77 | The result is the leftmost occurrence of the separator at or after the start position. `None` means it occurs nowhere from there on. |
| PyStr.Split | bot.py:77 | `str.split` with a non-empty separator always yields at least one piece. |
| PyStr.SplitSingle | bot.py:77-79 | The split has a single piece exactly when the separator does not occur. |
| PyStr.SplitJoin | bot.py:77 | Joining the pieces with the separator gives back the original text. |
| PyStr.SplitPiecesFree | bot.py:77 | No piece of a split contains the separator. |
| PyStr.SplitCons | bot.py:77 | A text made of a piece, the separator and a rest splits into that piece followed by the split of the rest. |
| PyStr.SplitFree | bot.py:77 | A text without the separator splits into itself alone. |
| PyStr.Strip | bot.py:84-86 | `strip()` returns the part of the text between its leading and trailing whitespace. Only whitespace surrounds it, and it neither starts nor ends with whitespace. |
| PyStr.StripExact | bot.py:84-86 | Whatever is surrounded only by whitespace and has no whitespace at either end is exactly what `strip()` returns. |
| PyStr.StripIdempotent | bot.py:84-86 | Stripping twice is the same as stripping once. |
| PyStr.IntToDecimal | bot.py:44 | `str(user.id)` is non-empty. It starts with '-' exactly for negative ids, and all its other characters are digits. |
| PyStr.IntRoundTrip | bot.py:44 | The decimal text of an id parses back to that id. |
| Captions.Pieces | bot.py:77-80 | After the length check the list `opciones` always has at least three entries. |
| Captions.ParseOptions | bot.py:76-86 | The rule the bot applies to the captioning model's answer: the first three pieces of the split, stripped, or else the whole answer stripped followed by the two generic options. Its contract is stated by the lemmas below (ParseOptionsFaithful ties it to the handler's own lines, FallbackIffAtMostOneDelimiter, ExtraPiecesDiscarded and FormatRoundTrip characterise it). |
| Captions.ParseOptionsAsWritten | bot.py:84-86 | Each option is the corresponding entry of `opciones`, stripped. The "N/A" fallbacks are never taken. |
| Captions.ParseOptionsFaithful | bot.py:76-86 | The handler's computation equals the simple rule the bot uses: the first three pieces stripped, or else the whole text stripped plus the two generic options. |
| Captions.GenericStripped | bot.py:80 | The two generic options are unchanged by `strip()`. |
| Captions.FallbackIffAtMostOneDelimiter | bot.py:77-80 | The fallback is taken exactly when the answer contains at most one delimiter. |
| Captions.NoDelimiterFallback | bot.py:79-80 | An answer without a delimiter gives the whole answer stripped, followed by the two generic options. |
| Captions.SingleDelimiterFallback | bot.py:79-80 | An answer with exactly one delimiter also falls back. The delimiter stays inside the first option. |
| Captions.ExtraPiecesDiscarded | bot.py:84-86 | Everything after the third delimiter is discarded. The options are the first three pieces, stripped. |
| Captions.ThreePieces | bot.py:77-86 | An answer of exactly three pieces, the first two each cut at the delimiter that follows it and the last holding none, gives those three pieces stripped. |
| Captions.FormatRoundTrip | bot.py:64-86 | Three trimmed options written in the requested format, joined by the delimiter, are parsed back into exactly those options, provided the first two are cut at the delimiter that follows them and the last holds no delimiter. |
| Captions.EmptyOptionPossible | bot.py:84-86 | An option can be empty: an answer that starts with the delimiter followed by two non-empty pieces yields the empty string as its first option. |
| Captions.NoBarIsDelimited | bot.py:77 | A text with no vertical bar contains no delimiter. When a delimiter follows it, the split cuts exactly there. |
| Captions.Preview | bot.py:100 | `opcion[:100] + "..."` for the menu. PreviewShape states its length and content. |
| Captions.PreviewShape | bot.py:100 | A preview is the option itself when it has at most 100 characters, otherwise its first 100 characters. Either way "..." follows. |
| Naming.FileName | bot.py:44 | The object name `f"{user.id}_{uid}.jpg"`. FileNameRoundTrip and FileNameInjective state that it determines the user and the photo and is determined by them. |
| Naming.FileNameRoundTrip | bot.py:44 | The user id and the photo's unique id can be read back from the object name. |
| Naming.FileNameInjective | bot.py:44-53 | Two uploads use the same object name exactly when the user and the photo are the same. With upsert, re-sending a photo overwrites only its own copy. |
| Naming.IndexOf | bot.py:44 | The result is the first position of the character. No earlier position holds it. |
| Choices.Parse | bot.py:107-110 | Exactly the texts "1", "2" and "3" are accepted, and each is read as the choice it names. |
| Choices.ParseText | bot.py:108 | Each choice's text is accepted as that same choice. |
| Choices.FieldKey | bot.py:123 | The column name `f"opcion_{eleccion}"`. FieldKeys gives its three values. |
| Choices.FieldKeys | bot.py:123 | Choice k selects the column `opcion_k`. |
| Records.Row.Get | bot.py:123-124 | `registro[key]` for the columns the bot reads back. Caption states that every choice's key finds option k. |
| Records.Caption | bot.py:122-123 | `registro[f"opcion_{eleccion}"]` always finds its column. Choice k reads option k. |
| Records.Latest | bot.py:116-122 | The query returns `None` exactly when the user has no row. Otherwise it returns one of the user's rows whose id is at least that of every other row of the user. |
| Records.LatestUnique | bot.py:116 | With increasing ids, the user's row with the greatest id is the only one the query can return. |
| Records.InsertKeepsOrder | bot.py:89-97 | Inserting a row whose id exceeds all stored ids keeps the ids increasing. Every user who had a row still has one. |
| Records.LatestAfterInsert | bot.py:89-97 | A freshly inserted row is the one its user's next choice reads. Every other user's latest row is unchanged. |
| Graph.Truthy | bot.py:128 | Python truthiness of an environment value: set and non-empty. PlanPost states that a request is sent exactly when both credentials are truthy. |
| Graph.PlanPost | bot.py:128-136 | A request is sent exactly when both the token and the page id are set and non-empty. It goes to `https://graph.facebook.com/<page>/photos` and carries the row's photo URL, the chosen caption and the token. |
| Graph.Report | bot.py:137-144 | Success is reported exactly when a request was sent and answered with status 200. The simulation notice is sent exactly when no request was sent. A connection error is reported when sending failed. Any other status reports the error body. |
| Conversation.Route | bot.py:156-163 | `start` and photos are entry points only when there is no conversation. A photo is handled while waiting for a photo. Texts matching the choice pattern (a single 1, 2 or 3, optionally followed by a newline) are handled while waiting for a choice. `/cancel` is handled in either waiting state. Nothing else is handled. |
| Conversation.MatchesChoicePattern | bot.py:160 | The choice pattern, applied with `re.search`, matches exactly for "1", "2", "3" and the same followed by a single newline, since `$` also matches before a final newline. |
| Conversation.CancelKeyUnhandled | bot.py:160-162 | The keyboard's "Cancelar" key sends plain text. That text is neither a choice nor `/cancel`, so no handler receives it. |
| Conversation.GuardRejectsRoutedText | bot.py:108-110 | "2\n" passes the routing pattern, but the handler's guard rejects it. |
| Conversation.BackedLeaving | bot.py:32 | Moving a user to any state other than choosing keeps every choosing user backed by a row. |
| Conversation.BackedChoosing | bot.py:97-104 | Moving a user who has a row into the choosing state keeps every choosing user backed, provided no user lost their rows. |
| Conversation.ChooserHasPhoto | bot.py:118-120 | A user who is choosing always has a latest row. |
| Conversation.Bot.Start | bot.py:28-32 | `start` greets the user and waits for a photo. Nothing else changes. |
| Conversation.Bot.ReceivePhoto | bot.py:34-104 | On a failed upload the user is told and the conversation ends, with nothing stored. Otherwise the photo is stored under its file name and the parsed options are inserted with the next id. That row becomes the user's latest row, the menu shows the three previews, and the state becomes waiting for a choice. |
| Conversation.Bot.Accept | bot.py:88-104 | After a successful upload, the stored object, the inserted row, the menu and the new state are as listed for ReceivePhoto. |
| Conversation.Bot.Publish | bot.py:106-147 | An invalid text gets a reminder and changes nothing else. A valid choice k reads the user's latest row; if there is none, the user is asked for a new photo and no request is sent. Otherwise the request planned from the row's URL and its option k is sent (when credentials are set) and its outcome reported. The state is waiting for a photo in both cases. |
| Conversation.Bot.Cancel | bot.py:149-151 | `cancel` ends the conversation and changes nothing else. |
| Conversation.Bot.Handle | bot.py:156-163 | An unhandled message changes nothing. A routed message has exactly the effects of the handler it reaches: the greeting or the cancellation reply; for a photo, the stored object, the inserted row, the menu and the choosing state (or the error reply and END); for a choice, the reminder, or the request sent and its report. Only the sender's state moves. Replies and requests only grow. Both invariants hold after every message, so a valid choice always finds the user's photo. |
| Conversation.PhotoThenChoice | bot.py:34-163 | A user not yet choosing sends a photo and then choice k, each dispatched as a message. With credentials set and a successful upload, exactly one request is sent, carrying the uploaded photo's URL with option k parsed from the captioning model's answer. The user is then waiting for a new photo. |

## Left out

- Telegram I/O is not modelled: downloads, `reply_text` wording, emojis, Markdown, reply keyboards and async scheduling. Replies are recorded only by kind, and the menu only by its three previews.
- The photo bytes, the unique file id, the public URL and the captioning model's answer are inputs. The Gemini call and the prompt's effect on the model are outside the model.
- Exceptions raised by `generate_content` and by the table `insert` are not modelled. They escape the handler in the source (bot.py:69-97).
- Conversation.Bot.ReceivePhoto: a failed upload leaves the bucket unchanged. The model cannot express an upload that succeeded followed by a failing `get_public_url` (bot.py:55), which would leave the object stored.
- The bare `except` at bot.py:81-82 is not modelled as a branch. Splitting on the non-empty literal `"|||"` never raises, so `PyStr.Split` requires a non-empty separator.
- The database is modelled only as far as the bot uses it. The table is a sequence of rows changed only by this bot, and ids come from a counter standing for the identity column. Rows written or deleted by anyone else are not modelled, so the choosing-user invariant and `Conversation.ChooserHasPhoto` hold only under that assumption.
- Conversations are keyed by the user id alone. The library keys them by chat and user, which coincide in a private chat.
- Other ConversationHandler behaviour is not modelled: re-entry settings, timeouts, persistence, and handlers outside the conversation.
- The HTTP exchange with the Graph API is not modelled. Its result (a status and body, or a connection failure) is an input.
- Environment-variable loading and client initialisation (bot.py:12-23) are not modelled. The access token and page id are constructor arguments.
