# Transliteration bot: the dictionary command handler

This project models the text-message handler of a Telegram bot. The handler is `receive_update` in `main.py`. It transliterates Ukrainian or Russian words into Latin letters. Users can also edit an override dictionary, `custom_map`, adding, editing, deleting and listing entries. It is one module-level dict shared by every chat, not a dictionary per user. The model covers what the handler does with the stripped text of one message:

- an empty text gets no reply;
- `/start` gets the help text;
- `/add word translit`, `/edit word translit` and `/delete word` change `custom_map`. They are parsed with `text.split(maxsplit=2)`, and after each successful change `save_dict` runs;
- `/list` lists the dictionary in insertion order;
- `/translit text` transliterates word by word and joins the results with `_`;
- any other text is looked up as a whole. The dictionary entry under its lower-cased form wins over the automatic transliteration.

Layout:

- `seqs.dfy` (module `Seqs`): facts about sequences. The bot uses them to model the key order of a Python dict.
- `text.dfy` (module `Text`): Python's `str.strip()`, `str.split()`, `str.split(maxsplit=n)`, `str.startswith` and `"_".join`, plus a one-character `str.split(sep)`. The handler never calls `str.split(sep)`: it is there only as the inverse of the join at main.py:79, to state that join's round trip. They are written out over Python's own whitespace set (`str.isspace`). Each comes with the properties the handler relies on, plus round trips.
- `bot.dfy` (module `Bot`): the branch classifier, the reply datatype, the `/translit` loop, and the class `TranslitBot`. The class holds the dictionary as a `map` plus its insertion order as a `seq`. Its methods change that state as the handler's branches do. The module ends with end-to-end properties about message sequences.

Some parts of the handler become parameters of the model: `str.lower` and the `transliterate` function are given functions, stored in the class. The reply is a datatype that names what the message says and carries its data (word, transliteration, source, listing). It does not hold the literal text. `save_dict` is modelled as a ghost log, `saved`. Each entry is the sequence of `(key, value)` pairs the file would hold.

## Model

| member | source | states |
|---|---|---|
| Bot.TranslitBot.Handle | main.py:9-96 | An empty stripped text gives no reply and changes nothing. Otherwise the reply and the new dictionary are those of the branch the text's prefix selects. Only a successful /add, /edit or /delete changes the state, and then `save_dict` has written the new entries in order. The dict-order invariant is kept. |
| Bot.TranslitBot.AddEntry | main.py:29-36 | Without exactly three parts, the reply is the /add format hint and nothing changes. Otherwise lower(word) maps to lower(translit) and a new key goes last in the order. With a new key or an old one, the dictionary is saved and the reply is `Added` with both lower-cased strings. |
| Bot.TranslitBot.EditEntry | main.py:38-48 | Without exactly three parts, the reply is the /edit format hint. A missing key gets "not in dictionary" and nothing changes. An existing key gets its new value, keeps its place and the key set, and is saved. |
| Bot.TranslitBot.DeleteEntry | main.py:50-60 | Without exactly two parts, the reply is the /delete format hint. A missing key gets "not in dictionary" and nothing changes. An existing key is removed from the map and from the order, the other keys stay in order, and the dictionary is saved. |
| Bot.TranslitBot.Mutate | main.py:15-60 | The three dictionary commands: `split(maxsplit=2)` of the text goes to the branch of its prefix, and nothing changes unless that branch saves. |
| Bot.TranslitBot.Respond | main.py:17-96 | The read-only branches, without changing anything. /start answers the help text. /list answers "empty" on an empty dictionary and otherwise its items in insertion order. /translit answers the text after the prefix and the join with "_" of one segment per word. Any other text answers the dictionary value under its lower-cased form, marked as from the dictionary, or else its automatic transliteration, marked as automatic. |
| Bot.TranslitWords | main.py:71-79 | One segment per word, in order. Segment i is the dictionary value of lower(word i) when that key is present, and otherwise `transliterate(word i)`. |
| Bot.ClassifyByPrefix | main.py:17-82 | No command prefix is a prefix of another. So a text takes each branch exactly when it starts with that branch's prefix, whatever the order of the elif chain. |
| Bot.ItemsExact | main.py:62-65 | The /list listing has exactly as many lines as the dictionary has keys, lists every entry, and lists nothing that is not an entry. |
| Bot.ItemsAppend | main.py:34 | Assigning a new key puts its entry after all others in `items()`. |
| Bot.ItemsOverwrite | main.py:44 | Assigning an existing key replaces its entry in place in `items()`. |
| Bot.ItemsRemove | main.py:56 | `del` takes out exactly that key's entry and keeps the others in their order. |
| Bot.PlainWordIsLookup | main.py:82-85 | A non-empty word without whitespace that does not start with "/start" or "/list" is unchanged by strip() and takes the lookup branch. |
| Bot.AddMessageParses | main.py:15-33 | "/add w t" (w one word, t a trimmed phrase) selects /add and splits into exactly "/add", w and t, with t kept whole. |
| Bot.DeleteMessageParses | main.py:15-54 | "/delete w" selects /delete and splits into exactly "/delete" and w. |
| Bot.TranslitHasWords | main.py:69-71 | A stripped /translit command always leaves at least one word to transliterate. |
| Bot.AddThenSend | main.py:29-89 | After "/add w t", sending w answers lower(t) from the dictionary. |
| Bot.AddThenDelete | main.py:29-89 | "/add w t" followed by "/delete w" leaves the dictionary as before without lower(w), and w is then transliterated automatically. |
| Bot.Classify | main.py:17-82 | The elif chain, tried top to bottom. Every branch other than the plain lookup needs a text of at least five characters that starts with "/". |
| Bot.Resolve | main.py:74-90 | One word or text: the answer comes from the dictionary exactly when its lower-cased form is a key, and is then that key's value. Otherwise it is `transliterate` of the text as typed. |
| Bot.Segments | main.py:72-78 | The list `result_words`: one segment per word, the dictionary value of the lower-cased word when that key is present, and otherwise `transliterate` of the word. |
| Bot.Items | main.py:64 | `custom_map.items()`: one pair per key of the order, in that order, each pairing a key of the dictionary with its value. |
| Bot.TranslitBot.Save | main.py:107-109 | `save_dict` (called at lines 35, 45 and 57): the log gains the dictionary's entries in insertion order, and nothing else changes. |
| Bot.TranslitOutputSplits | main.py:69-80 | For a stripped /translit command whose segments contain no "_", splitting the reply's output on "_" gives back exactly those segments. |
| Bot.JoinAmbiguous | main.py:79 | Without that condition the output does not determine the segments: the single segment "x_y" and the two segments "x" and "y" give the same output. |
| Text.IsSpace | main.py:9-15 | The whitespace set of `str.isspace`. Space, tab, newline and carriage return are in it. Latin letters, digits, "/", "_" and the Cyrillic letters are not. |
| Text.StartsWith | main.py:17-69 | `str.startswith`: holds exactly when the prefix fits and agrees with the text position by position. |
| Text.TrimStart | main.py:9 | The left half of `strip()`: never longer than its input, and empty or starting with a non-whitespace character. |
| Text.Words | main.py:71 | `split()` with no argument: the maximal whitespace-free runs in order. Its properties are `Text.WordsEmptyIff`, `Text.WordsArePieces` and `Text.WordsOfJoin`. |
| Text.SplitMax | main.py:15 | `split(maxsplit=n)`: at most n runs are cut off the front, and the rest after the following whitespace is kept whole. Its properties are `Text.SplitMaxArePieces`, `Text.SplitThree` and `Text.SplitTwo`. |
| Text.Join | main.py:79 | `sep.join(parts)`: the parts with the separator between neighbours. Its inverses are `Text.SplitOnJoin` and `Text.WordsOfJoin`. |
| Seqs.Without | main.py:56 | The key order after `del`: unchanged when the key is absent, otherwise one shorter, and never gaining a key. |
| Seqs.IndexOf | main.py:56 | The index found holds the key, and the key does not occur before it. |
| Seqs.WithoutRemoves | main.py:56 | Removing a key from a duplicate-free key order gives a duplicate-free order that holds exactly the other keys and is one shorter. |
| Seqs.DistinctCard | main.py:62-64 | A duplicate-free key order has as many distinct keys as it is long. |
| Text.Strip | main.py:9 | The stripped text is no longer than the input and neither starts nor ends with whitespace. |
| Text.TrimStartSuffix | main.py:9 | Stripping the front removes a prefix that is all whitespace and keeps the rest as a suffix. |
| Text.TrimEnd | main.py:9 | Stripping the end keeps a prefix, and what it drops is all whitespace. |
| Text.StripEmptyIff | main.py:9-12 | The stripped text is empty exactly when every character of the message is whitespace, so such a message gets no reply. |
| Text.StripUnchanged | main.py:9 | A text that neither starts nor ends with whitespace is unchanged by strip(). |
| Text.StripIdempotent | main.py:9 | Stripping twice is stripping once. |
| Text.WordLength | main.py:71 | The first word is whitespace-free and ends at the end of the text or at whitespace. |
| Text.WordsEmptyIff | main.py:71 | split() gives no words exactly when the text is all whitespace. |
| Text.WordsArePieces | main.py:71 | Every word of split() is non-empty and whitespace-free. |
| Text.WordsOfJoin | main.py:71 | split() of the words joined by single spaces gives back those words. |
| Text.SplitMaxArePieces | main.py:15 | split(maxsplit=n) yields at most n+1 pieces. None is empty or starts with whitespace, and all but a last (n+1)-th piece are whitespace-free. |
| Text.SplitThree | main.py:15-30 | Two words and a trimmed remainder split with maxsplit=2 into exactly those three pieces. |
| Text.SplitTwo | main.py:15-51 | Two words split with maxsplit=2 into exactly those two pieces. |
| Text.SplitOn | main.py:79 | Splitting on a character gives at least one piece and no piece contains it. |
| Text.SplitOnJoin | main.py:79 | Joining a non-empty list of segments with "_" and splitting on "_" gives back the segments, provided no segment contains "_". |

## Left out

- The Flask route, the JSON body and its "No update" answer (main.py lines 1-8) are not modelled. The model starts from the message text.
- The `chat_id` half of the guard on line 11 is not modelled. Only the empty-text half is.
- Sending the reply with `requests.post` (lines 98-105) is left out: it is network I/O. The model returns the reply instead.
- What `save_dict` writes to the JSON file is kept only as the ghost log `saved` of entry sequences. File encoding and I/O errors are left out.
- Loading `custom_map` from the file at startup is not part of this model. The constructor starts with an empty dictionary, and every operation is proved from any state that satisfies `Valid()`.
- `transliterate` and `str.lower` are code outside the handler. They are parameters (given functions), so no property of their output is assumed.
- The reply texts are left out: the Ukrainian wording, emoji, Markdown and the `https://t.me/s/` search link. Each reply is a datatype value that carries the data the message shows.
- Exceptions are not modelled, for example a failing file write inside `save_dict`.
- `chat_id` (main.py:8) plays no part beyond the guard on line 11 and the reply address on line 99. It never selects a dictionary, so one `TranslitBot` stands for the bot's state across all chats. One chat's `/delete` removes an entry another chat added, and `/list` shows every chat's entries. The label "from your dictionary" (main.py:87) is not backed by per-user state, and the model does not add any.
- Messages are handled one at a time. Under a threaded Flask server, `custom_map` is a shared global that no lock guards. The model serialises the handler calls, so interleaved updates are not captured.
- Strings are sequences of Unicode characters. Whitespace is Python's `str.isspace` set, written out by code point.
